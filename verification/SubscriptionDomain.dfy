/** Subscriptions, plans, events and entitlements (subscription-core/domain). */
module SubscriptionDomain {
  import opened Collections

  /** Statuses and event types are strings; other ones can arrive and are kept as they are. */
  datatype Status = Trialing | Active | PastDue | Canceled | Paused | OtherStatus(name: string)

  datatype Subscription = Subscription(
    id: string, customer: string, providerSub: string, plan: string, status: Status, seats: int,
    periodStart: int, periodEnd: int, cancelAtPeriodEnd: bool, trialEnd: int, updatedAt: int)

  datatype EventType = Created | Updated | CanceledEvent | PaymentFailed | PaymentSucceeded | OtherType(name: string)

  datatype Event = Event(id: string, kind: EventType, subscription: Subscription)

  function TargetStatus(e: Event): Status {
    match e.kind
    case CanceledEvent => Canceled
    case PaymentFailed => PastDue
    case PaymentSucceeded => Active
    case Created => if e.subscription.status != OtherStatus("") then e.subscription.status else Active
    case Updated => if e.subscription.status != OtherStatus("") then e.subscription.status else Active
    case OtherType(_) => e.subscription.status
  }

  /** The transition table; a status outside it goes nowhere. */
  function Targets(from: Status): set<Status> {
    match from
    case Trialing => {Active, PastDue, Canceled, Paused}
    case Active => {PastDue, Canceled, Paused}
    case PastDue => {Active, Canceled}
    case Paused => {Active, Canceled}
    case Canceled => {}
    case OtherStatus(_) => {}
  }

  predicate CanTransition(from: Status, to: Status) {
    from == to || to in Targets(from)
  }

  function ApplyTransition(s: Subscription, to: Status): Option<Subscription> {
    if CanTransition(s.status, to) then Some(s.(status := to)) else None
  }

  // ---------------------------------------------------------------- entitlements

  /** A limit of -1 means no limit, 0 that the feature is off. */
  datatype Plan = Plan(tier: string, features: map<string, int>, seatIncluded: int)

  datatype Entitlement = Entitlement(subscription: string, tier: string, features: map<string, int>, seats: int,
                                     active: bool)

  datatype Reason = Allowed | NotActive | FeatureOff | QuotaExceeded | UnknownFeature

  datatype Decision = Decision(allow: bool, reason: Reason, limit: int)

  predicate GrantsAccess(s: Status) {
    s == Active || s == Trialing || s == PastDue
  }

  function DeriveEntitlement(s: Subscription, p: Plan): Entitlement {
    Entitlement(s.id, p.tier, p.features, if p.seatIncluded > s.seats then p.seatIncluded else s.seats,
                GrantsAccess(s.status))
  }

  function Evaluate(e: Entitlement, feature: string): Decision {
    if !e.active then Decision(false, NotActive, 0)
    else if feature !in e.features then Decision(false, UnknownFeature, 0)
    else if e.features[feature] == 0 then Decision(false, FeatureOff, 0)
    else Decision(true, Allowed, e.features[feature])
  }

  /** The decision with metered usage on top. */
  function Decide(e: Entitlement, feature: string, used: int): Decision {
    var d := Evaluate(e, feature);
    if !d.allow || d.limit < 0 then d
    else if used >= d.limit then Decision(false, QuotaExceeded, d.limit)
    else d
  }
}
