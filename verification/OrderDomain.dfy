/** Orders, outbox events and the two texts that identify a request
    (microservice/order/domain.go, microservice/order/service.go).

    Identifiers and lease tokens are strings; where the program draws a random one, the model
    takes it as an argument that has not been issued before. */
module OrderDomain {
  import opened Text

  datatype OrderStatus = PendingMargin | PendingRoute | Accepted | Rejected | ReconciliationRequired

  datatype MarginState = MarginNone | MarginReserved | MarginReleasePending | MarginReleased

  datatype EventKind = ReserveMargin | RouteExchange | ReleaseMargin

  datatype EventState = EventPending | EventRetry | EventProcessing | EventDelivered | EventDead

  /** SHA-256 is taken to be injective: a digest determines its text. */
  datatype Digest = Sha256(text: string)

  datatype Order = Order(
    id: string, accountID: string, idempotencyKey: string, requestHash: Digest,
    instrument: string, side: string, quantity: int, limitPrice: int,
    status: OrderStatus, margin: MarginState,
    reservationID: string, exchangeOrderID: string, failureReason: string)

  datatype OutboxEvent = OutboxEvent(
    id: string, orderID: string, kind: EventKind, state: EventState, attempts: nat,
    availableAt: int, leaseToken: string, leaseUntil: int, lastError: string)

  datatype Error =
    | InvalidOrder(reason: string)
    | IdempotencyConflict
    | OrderNotFound
    | LeaseLost

  datatype Result<T> = Ok(value: T) | Err(error: Error)

  datatype PlaceOrderRequest = PlaceOrderRequest(
    accountID: string, idempotencyKey: string, instrument: string, side: string,
    quantity: int, limitPrice: int)

  // ---------------------------------------------------------------- requests

  /** The first rule a request breaks, or "" when it breaks none. */
  function Validate(r: PlaceOrderRequest): (problem: string)
    ensures problem == "" <==> IsValid(r)
  {
    if r.accountID == "" then "account ID is required"
    else if r.idempotencyKey == "" then "idempotency key is required"
    else if r.instrument == "" then "instrument is required"
    else if r.side != "BUY" && r.side != "SELL" then "side must be BUY or SELL"
    else if r.quantity <= 0 then "quantity must be positive"
    else if r.limitPrice <= 0 then "limit price must be positive"
    else ""
  }

  predicate IsValid(r: PlaceOrderRequest) {
    && r.accountID != "" && r.idempotencyKey != "" && r.instrument != ""
    && (r.side == "BUY" || r.side == "SELL")
    && r.quantity > 0 && r.limitPrice > 0
  }

  function Decimal(n: int): string {
    if n < 0 then "-" + Digits(-n) else Digits(n)
  }

  /** The text that is hashed. */
  function PreHash(r: PlaceOrderRequest): string {
    r.instrument + "|" + r.side + "|" + Decimal(r.quantity) + "|" + Decimal(r.limitPrice)
  }

  function RequestFingerprint(r: PlaceOrderRequest): Digest {
    Sha256(PreHash(r))
  }

  predicate SameOrderFields(r: PlaceOrderRequest, s: PlaceOrderRequest) {
    r.instrument == s.instrument && r.side == s.side && r.quantity == s.quantity && r.limitPrice == s.limitPrice
  }

  /** Two valid requests have one fingerprint exactly when they ask for the same order, also
      when the instrument itself contains the separator. */
  lemma FingerprintIdentifiesOrder(r: PlaceOrderRequest, s: PlaceOrderRequest)
    requires IsValid(r) && IsValid(s)
    ensures RequestFingerprint(r) == RequestFingerprint(s) <==> SameOrderFields(r, s)
  {
    if PreHash(r) == PreHash(s) {
      var a, b := r.instrument + "|" + r.side, s.instrument + "|" + s.side;
      var c, d := a + "|" + Digits(r.quantity), b + "|" + Digits(s.quantity);
      SplitAtLast(c, Digits(r.limitPrice), d, Digits(s.limitPrice), '|');
      SplitAtLast(a, Digits(r.quantity), b, Digits(s.quantity), '|');
      SplitAtLast(r.instrument, r.side, s.instrument, s.side, '|');
      DigitsInjective(r.limitPrice, s.limitPrice);
      DigitsInjective(r.quantity, s.quantity);
    }
  }

  // ---------------------------------------------------------------- idempotency index

  const NUL: char := '\0'

  function IdempotencyIndex(accountID: string, key: string): string {
    accountID + [NUL] + key
  }

  /** For account IDs without a NUL byte the index identifies the pair. */
  lemma IndexIdentifiesPair(a: string, k: string, a': string, k': string)
    requires NUL !in a && NUL !in a'
    ensures IdempotencyIndex(a, k) == IdempotencyIndex(a', k') <==> a == a' && k == k'
  {
    if IdempotencyIndex(a, k) == IdempotencyIndex(a', k') {
      SplitAtFirst(a, k, a', k', NUL);
    }
  }

  ghost predicate SomeKeysCollide(a: string, a': string) {
    exists k: string, k': string | k != "" && k' != "" :: IdempotencyIndex(a, k) == IdempotencyIndex(a', k')
  }

  /** In general two different accounts can share an index exactly when one of them, followed
      by a NUL byte, is an initial part of the other. */
  lemma IndexCollisions(a: string, a': string)
    requires a != a'
    ensures SomeKeysCollide(a, a') <==> a + [NUL] <= a' || a' + [NUL] <= a
  {
    if a + [NUL] <= a' {
      PrefixCollides(a, a');
    } else if a' + [NUL] <= a {
      PrefixCollides(a', a);
      var k, k' :| k != "" && k' != "" && IdempotencyIndex(a', k) == IdempotencyIndex(a, k');
      assert IdempotencyIndex(a, k') == IdempotencyIndex(a', k);
    }
    if SomeKeysCollide(a, a') {
      var k, k' :| k != "" && k' != "" && IdempotencyIndex(a, k) == IdempotencyIndex(a', k');
      var whole := IdempotencyIndex(a, k);
      assert a + [NUL] == whole[..|a| + 1] && a' + [NUL] == whole[..|a'| + 1];
      assert a == whole[..|a|] && a' == whole[..|a'|];
    }
  }

  /** Two accounts, two keys, one index. */
  lemma CollidingAccountsExample()
    ensures IdempotencyIndex("a", "b" + [NUL] + "k") == IdempotencyIndex("a" + [NUL] + "b", "k")
  {
  }

  lemma PrefixCollides(a: string, a': string)
    requires a + [NUL] <= a'
    ensures SomeKeysCollide(a, a')
  {
    var rest := a'[|a| + 1..];
    var k, k' := rest + [NUL] + "k", "k";
    assert a' == a + [NUL] + rest;
    assert IdempotencyIndex(a, k) == IdempotencyIndex(a', k');
  }
}
