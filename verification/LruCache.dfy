/** One shard of the TTL-bounded LRU cache (fintech-gateway-go/internal/cache/cache.go): a map and
    a recency list, against what each key can remember of its own past. */
module LruCache {
  import opened Collections
  import opened Histories

  type Value = string

  datatype Entry = Entry(value: Value, expiresAt: int)

  /** `order` holds the keys of the list elements, most recently used first. */
  datatype State = State(items: map<string, Entry>, order: seq<string>)

  /** A shard never changes these; a capacity of 0 or less means no bound. */
  datatype Limits = Limits(capacity: int, ttl: int)

  // ---------------------------------------------------------------- what each operation does

  /** The list after the element of `key` is taken out. */
  function Without(order: seq<string>, key: string): seq<string> {
    if order == [] then []
    else if order[0] == key then order[1..]
    else [order[0]] + Without(order[1..], key)
  }

  function Touched(s: State, key: string): State {
    s.(order := [key] + Without(s.order, key))
  }

  function Dropped(s: State, key: string): State {
    State(s.items - {key}, Without(s.order, key))
  }

  /** A key that was not there goes to the front. */
  function Pushed(s: State, key: string, e: Entry): State {
    State(s.items[key := e], [key] + s.order)
  }

  /** The last element goes when there are too many. */
  function Trimmed(s: State, capacity: int): State {
    if capacity > 0 && |s.items| > capacity && s.order != [] then
      var last := |s.order| - 1;
      State(s.items - {s.order[last]}, s.order[..last])
    else s
  }

  function Stored(s: State, l: Limits, key: string, value: Value, now: int): State {
    var e := Entry(value, now + l.ttl);
    if key in s.items then Touched(s.(items := s.items[key := e]), key)
    else Trimmed(Pushed(s, key, e), l.capacity)
  }

  function GetTo(s: State, key: string, now: int): (State, Option<Value>) {
    if key !in s.items then (s, None)
    else if now > s.items[key].expiresAt then (Dropped(s, key), None)
    else (Touched(s, key), Some(s.items[key].value))
  }

  /** The second half of GetOrLoad, under the lock: `loaded` is what the loader would return. */
  function ReloadTo(s: State, l: Limits, key: string, now: int, loaded: Option<Value>): (State, Option<Value>) {
    if key in s.items && now < s.items[key].expiresAt then (Touched(s, key), Some(s.items[key].value))
    else if loaded.None? then (s, None)
    else (Stored(s, l, key, loaded.value, now), loaded)
  }

  // ---------------------------------------------------------------- the shard

  class Shard {
    const limits: Limits
    var items: map<string, Entry>
    var order: seq<string>

    ghost function View(): State
      reads this
    {
      State(items, order)
    }

    constructor (capacity: int, ttl: int)
      ensures limits == Limits(capacity, ttl) && View() == State(map[], [])
    {
      limits := Limits(capacity, ttl);
      items := map[];
      order := [];
    }

    method Get(key: string, now: int) returns (v: Option<Value>)
      modifies this
      ensures (View(), v) == GetTo(old(View()), key, now)
    {
      if key !in items {
        return None;
      }
      var e := items[key];
      if now > e.expiresAt {
        order := Without(order, key);
        items := items - {key};
        return None;
      }
      order := [key] + Without(order, key);
      v := Some(e.value);
    }

    method Set(key: string, value: Value, now: int)
      modifies this
      ensures View() == Stored(old(View()), limits, key, value, now)
    {
      if key in items {
        items := items[key := Entry(value, now + limits.ttl)];
        order := [key] + Without(order, key);
        return;
      }
      order := [key] + order;
      items := items[key := Entry(value, now + limits.ttl)];
      Trim();
    }

    method Trim()
      modifies this
      ensures View() == Trimmed(old(View()), limits.capacity)
    {
      if limits.capacity > 0 && |items| > limits.capacity && order != [] {
        var last := |order| - 1;
        items := items - {order[last]};
        order := order[..last];
      }
    }

    method Reload(key: string, now: int, loaded: Option<Value>) returns (v: Option<Value>)
      modifies this
      ensures (View(), v) == ReloadTo(old(View()), limits, key, now, loaded)
    {
      if key in items && now < items[key].expiresAt {
        order := [key] + Without(order, key);
        return Some(items[key].value);
      }
      if loaded.None? {
        return None;
      }
      Set(key, loaded.value, now);
      v := loaded;
    }

    /** With no other call between the two halves. */
    method GetOrLoad(key: string, now: int, later: int, loaded: Option<Value>) returns (v: Option<Value>)
      modifies this
      ensures var first := GetTo(old(View()), key, now);
              (View(), v) == if first.1.Some? then first else ReloadTo(first.0, limits, key, later, loaded)
    {
      v := Get(key, now);
      if v.None? {
        v := Reload(key, later, loaded);
      }
    }
  }

  // ---------------------------------------------------------------- runs

  datatype Step =
    | Get(key: string, now: int)
    | Set(key: string, value: Value, now: int)
    | Reload(key: string, now: int, loaded: Option<Value>)

  function Exec(s: State, l: Limits, step: Step): State {
    match step
    case Get(key, now) => GetTo(s, key, now).0
    case Set(key, value, now) => Stored(s, l, key, value, now)
    case Reload(key, now, loaded) => ReloadTo(s, l, key, now, loaded).0
  }

  function Answer(s: State, l: Limits, step: Step): Option<Value> {
    match step
    case Get(key, now) => GetTo(s, key, now).1
    case Set(_, _, _) => None
    case Reload(key, now, loaded) => ReloadTo(s, l, key, now, loaded).1
  }

  /** What a step did to its key.  A caller sees `Stale` and `Nothing` alike, as a miss. */
  datatype Effect = Store(key: string, value: Value, now: int) | Hit(key: string) | Stale(key: string) | Nothing

  function EffectOf(s: State, step: Step): Effect {
    match step
    case Get(key, now) =>
      if key !in s.items then Nothing else if now > s.items[key].expiresAt then Stale(key) else Hit(key)
    case Set(key, value, now) => Store(key, value, now)
    case Reload(key, now, loaded) =>
      if key in s.items && now < s.items[key].expiresAt then Hit(key)
      else if loaded.Some? then Store(key, loaded.value, now)
      else Nothing
  }

  const NEW: State := State(map[], [])

  function Execs(l: Limits): (State, Step) -> State {
    (s: State, step: Step) => Exec(s, l, step)
  }

  ghost predicate IsHistory(h: History<Step, State>, l: Limits) {
    Follows(h, NEW, Execs(l))
  }

  // ---------------------------------------------------------------- map and list

  /** Map and list hold the same keys, each once. */
  ghost predicate Paired(s: State) {
    match s
    case State(items, order) => AreDistinct(order) && Elements(order) == items.Keys
  }

  ghost predicate Inv(s: State, l: Limits) {
    Paired(s) && (l.capacity > 0 ==> |s.items| <= l.capacity)
  }

  lemma {:induction false} WithoutRemoves(order: seq<string>, key: string)
    requires AreDistinct(order)
    ensures AreDistinct(Without(order, key))
    ensures Elements(Without(order, key)) == Elements(order) - {key}
  {
    if order != [] {
      WithoutRemoves(order[1..], key);
      assert Elements(order) == Elements(order[1..]) + {order[0]};
      if order[0] != key {
        var rest := Without(order[1..], key);
        assert Elements([order[0]] + rest) == Elements(rest) + {order[0]};
        assert order[0] !in Elements(rest);
        assert forall i | 0 <= i < |rest| :: rest[i] in Elements(rest);
      } else {
        assert order[0] !in order[1..];
      }
    }
  }

  lemma PushedFront(order: seq<string>, key: string)
    requires AreDistinct(order) && key !in order
    ensures AreDistinct([key] + order) && Elements([key] + order) == Elements(order) + {key}
  {
    assert forall i | 0 <= i < |order| :: order[i] in order;
  }

  lemma TouchKeepsPairs(s: State, key: string)
    requires Paired(s) && key in s.items
    ensures Paired(Touched(s, key))
  {
    WithoutRemoves(s.order, key);
    var rest := Without(s.order, key);
    assert key !in Elements(rest);
    PushedFront(rest, key);
  }

  lemma PushKeepsPairs(s: State, key: string, e: Entry)
    requires Paired(s) && key !in s.items
    ensures Paired(Pushed(s, key, e)) && |Pushed(s, key, e).items| == |s.items| + 1
  {
    assert key !in Elements(s.order);
    PushedFront(s.order, key);
    assert s.items[key := e].Keys == s.items.Keys + {key};
  }

  lemma TrimKeepsPairs(s: State, capacity: int)
    requires Paired(s) && s.order != []
    ensures Paired(Trimmed(s, capacity))
    ensures capacity > 0 && |s.items| <= capacity + 1 ==> |Trimmed(s, capacity).items| <= capacity
  {
    var last := |s.order| - 1;
    var oldest := s.order[last];
    assert Elements(s.order) == Elements(s.order[..last]) + {oldest};
    assert oldest !in s.order[..last];
    assert oldest in Elements(s.order);
    assert (s.items - {oldest}).Keys == s.items.Keys - {oldest};
  }

  lemma OverwriteKeepsPairs(s: State, key: string, e: Entry)
    requires Paired(s) && key in s.items
    ensures var s' := s.(items := s.items[key := e]);
            Paired(s') && s'.items.Keys == s.items.Keys && |s'.items| == |s.items|
  {
    var items := s.items[key := e];
    assert items.Keys == s.items.Keys;
    assert |items| == |items.Keys| && |s.items| == |s.items.Keys|;
  }

  lemma PushAndTrimKeepsInv(s: State, l: Limits, key: string, e: Entry)
    requires Inv(s, l) && key !in s.items
    ensures Inv(Trimmed(Pushed(s, key, e), l.capacity), l)
  {
    PushKeepsPairs(s, key, e);
    var pushed := Pushed(s, key, e);
    assert pushed.order != [];
    TrimKeepsPairs(pushed, l.capacity);
  }

  lemma OverwriteKeepsInv(s: State, l: Limits, key: string, e: Entry)
    requires Inv(s, l) && key in s.items
    ensures Inv(Touched(s.(items := s.items[key := e]), key), l)
  {
    OverwriteKeepsPairs(s, key, e);
    var s' := s.(items := s.items[key := e]);
    TouchKeepsPairs(s', key);
  }

  lemma StoreKeepsInv(s: State, l: Limits, key: string, value: Value, now: int)
    requires Inv(s, l)
    ensures Inv(Stored(s, l, key, value, now), l)
  {
    if key in s.items {
      OverwriteKeepsInv(s, l, key, Entry(value, now + l.ttl));
    } else {
      PushAndTrimKeepsInv(s, l, key, Entry(value, now + l.ttl));
    }
  }

  lemma StepKeepsInv(s: State, l: Limits, step: Step)
    requires Inv(s, l)
    ensures Inv(Exec(s, l, step), l)
  {
    match EffectOf(s, step)
    case Store(key, value, now) => StoreKeepsInv(s, l, key, value, now);
    case Hit(key) => TouchKeepsPairs(s, key);
    case Stale(key) =>
      WithoutRemoves(s.order, key);
      assert (s.items - {key}).Keys == s.items.Keys - {key};
    case Nothing =>
  }

  /** In every state of every run the map and the list are in bijection and within capacity. */
  lemma {:induction false} InvAlways(h: History<Step, State>, l: Limits, k: nat)
    requires IsHistory(h, l) && k <= |h.steps|
    ensures Inv(h.worlds[k], l)
  {
    if k > 0 {
      InvAlways(h, l, k - 1);
      NextWorld(h, NEW, Execs(l), k - 1);
      StepKeepsInv(h.worlds[k - 1], l, h.steps[k - 1]);
    }
  }

  // ---------------------------------------------------------------- what a key remembers

  /** What one key can tell from watching the effects of all steps: its last stored value and
      when, the other keys touched since its own last touch, which of those have not gone stale
      since, whether they ever were as many as the capacity, and whether the key itself was
      found stale. */
  datatype Memory =
    | Never
    | Memory(value: Value, storedAt: int, touched: set<string>, ahead: set<string>, crowded: bool, stale: bool)

  function Crowd(m: Memory, l: Limits, other: string): Memory {
    match m
    case Never => Never
    case Memory(_, _, touched, ahead, crowded, _) =>
      var ahead' := ahead + {other};
      m.(touched := touched + {other}, ahead := ahead',
         crowded := crowded || (l.capacity > 0 && |ahead'| >= l.capacity))
  }

  function Next(m: Memory, l: Limits, key: string, e: Effect): Memory {
    match e
    case Store(other, value, now) =>
      if other == key then Memory(value, now, {}, {}, false, false) else Crowd(m, l, other)
    case Hit(other) =>
      if m.Never? then Never
      else if other == key then m.(touched := {}, ahead := {})
      else Crowd(m, l, other)
    case Stale(other) =>
      if m.Never? then Never
      else if other == key then m.(stale := true)
      else m.(ahead := m.ahead - {other})
    case Nothing => m
  }

  /** A key should be present when it was stored and has neither been found stale nor been
      crowded out. */
  predicate Present(m: Memory) {
    m.Memory? && !m.stale && !m.crowded
  }

  predicate RemembersAt(h: History<Step, State>, l: Limits, key: string, memories: seq<Memory>, k: nat)
    requires k < |h.steps| && |memories| == |h.worlds| == |h.steps| + 1
  {
    memories[k + 1] == Next(memories[k], l, key, EffectOf(h.worlds[k], h.steps[k]))
  }

  ghost predicate Remembers(h: History<Step, State>, l: Limits, key: string, memories: seq<Memory>) {
    && |memories| == |h.worlds| == |h.steps| + 1 && memories[0] == Never
    && forall k: nat | k < |h.steps| :: RemembersAt(h, l, key, memories, k)
  }

  // ---------------------------------------------------------------- the list in front of a key

  ghost function Front(order: seq<string>, key: string): set<string> {
    if order == [] || order[0] == key then {} else {order[0]} + Front(order[1..], key)
  }

  lemma {:induction false} FrontWithin(order: seq<string>, key: string)
    ensures Front(order, key) <= Elements(order) - {key}
  {
    if order != [] && order[0] != key {
      FrontWithin(order[1..], key);
    }
  }

  lemma {:induction false} FrontWithout(order: seq<string>, key: string, other: string)
    requires AreDistinct(order) && other != key
    ensures Front(Without(order, other), key) == Front(order, key) - {other}
  {
    if order != [] {
      FrontWithout(order[1..], key, other);
      if order[0] == other {
        FrontWithin(order[1..], key);
        assert order[0] !in order[1..];
      } else {
        assert Without(order, other)[1..] == Without(order[1..], other);
      }
    }
  }

  lemma FrontPushed(order: seq<string>, key: string, other: string)
    ensures Front([other] + order, key) == if other == key then {} else Front(order, key) + {other}
  {
    assert ([other] + order)[1..] == order;
  }

  /** Dropping the last element leaves what is in front of the others. */
  lemma {:induction false} FrontTrimmed(order: seq<string>, key: string)
    requires key in order && key != order[|order| - 1]
    ensures Front(order[..|order| - 1], key) == Front(order, key)
  {
    if order[0] != key {
      FrontTrimmed(order[1..], key);
      assert order[1..][..|order| - 2] == order[..|order| - 1][1..];
    }
  }

  lemma {:induction false} FrontOfLast(order: seq<string>)
    requires AreDistinct(order) && order != []
    ensures Front(order, order[|order| - 1]) == Elements(order) - {order[|order| - 1]}
  {
    assert Elements(order) == Elements(order[1..]) + {order[0]};
    if |order| > 1 {
      FrontOfLast(order[1..]);
    }
  }

  // ---------------------------------------------------------------- one key's place in the shard

  /** What a shard has for a key: its entry, and the keys used more recently. */
  datatype Spot = Absent | At(entry: Entry, ahead: set<string>)

  ghost function SpotOf(s: State, key: string): Spot {
    if key in s.items then At(s.items[key], Front(s.order, key)) else Absent
  }

  /** Another key passes: the last place is lost. */
  function Passed(spot: Spot, l: Limits, other: string): Spot {
    match spot
    case Absent => Absent
    case At(e, ahead) =>
      var ahead' := ahead + {other};
      if l.capacity > 0 && |ahead'| >= l.capacity then Absent else At(e, ahead')
  }

  function SpotAfter(spot: Spot, l: Limits, key: string, e: Effect): Spot {
    match e
    case Store(other, value, now) => if other == key then At(Entry(value, now + l.ttl), {}) else Passed(spot, l, other)
    case Hit(other) =>
      if spot.Absent? then Absent else if other == key then spot.(ahead := {}) else Passed(spot, l, other)
    case Stale(other) =>
      if spot.Absent? || other == key then Absent else spot.(ahead := spot.ahead - {other})
    case Nothing => spot
  }

  /** A key that stays in a shard within capacity is not crowded. */
  lemma NotCrowded(s: State, l: Limits, key: string)
    requires Inv(s, l) && key in s.items
    ensures l.capacity > 0 ==> |Front(s.order, key)| < l.capacity
  {
    FrontWithin(s.order, key);
    SubsetIsSmaller(Front(s.order, key), s.items.Keys - {key});
  }

  lemma TouchFront(s: State, key: string, other: string)
    requires Paired(s)
    ensures Front(Touched(s, other).order, key) == if other == key then {} else Front(s.order, key) + {other}
  {
    FrontPushed(Without(s.order, other), key, other);
    if other != key {
      FrontWithout(s.order, key, other);
    }
  }

  /** Another key moves to the front. */
  lemma TouchOtherSpot(s: State, l: Limits, key: string, other: string)
    requires Inv(s, l) && other in s.items && other != key
    ensures SpotOf(Touched(s, other), key) == Passed(SpotOf(s, key), l, other)
  {
    TouchFront(s, key, other);
    TouchKeepsPairs(s, other);
    if key in s.items {
      NotCrowded(Touched(s, other), l, key);
    }
  }

  lemma {:induction false} LastIsBehind(order: seq<string>, key: string)
    requires AreDistinct(order) && key in order
    ensures key != order[|order| - 1] ==> order[|order| - 1] !in Front(order, key)
  {
    if order[0] != key {
      LastIsBehind(order[1..], key);
    }
  }

  lemma LastIsCrowded(s: State, key: string)
    requires Paired(s) && s.order != [] && key == s.order[|s.order| - 1]
    ensures |Front(s.order, key)| == |s.items| - 1
  {
    FrontOfLast(s.order);
    assert key in Elements(s.order);
  }

  lemma OthersAreNotCrowded(s: State, key: string)
    requires Paired(s) && key in s.items && s.order != [] && key != s.order[|s.order| - 1]
    ensures |Front(s.order, key)| <= |s.items| - 2
  {
    var last := s.order[|s.order| - 1];
    assert key in Elements(s.order) && last in Elements(s.order);
    FrontWithin(s.order, key);
    LastIsBehind(s.order, key);
    WithoutTwo(Front(s.order, key), s.items.Keys, key, last);
    assert |s.items| == |s.items.Keys|;
  }

  lemma WithoutTwo(front: set<string>, keys: set<string>, key: string, last: string)
    requires front <= keys && key in keys && last in keys && key != last && key !in front && last !in front
    ensures |front| <= |keys| - 2
  {
    SubsetIsSmaller(front, keys - {key} - {last});
  }

  /** Only the last element is behind all others, and dropping it leaves the rest in place. */
  predicate IsLastOrNot(front: set<string>, trimmedFront: set<string>, isLast: bool, count: nat) {
    if isLast then |front| == count - 1 else |front| <= count - 2 && trimmedFront == front
  }

  lemma LastOrNot(s: State, key: string)
    requires Paired(s) && key in s.items
    ensures s.order != []
    ensures var last := |s.order| - 1;
            IsLastOrNot(Front(s.order, key), Front(s.order[..last], key), key == s.order[last], |s.items|)
  {
    assert key in Elements(s.order);
    if key == s.order[|s.order| - 1] {
      LastIsCrowded(s, key);
    } else {
      OthersAreNotCrowded(s, key);
      FrontTrimmed(s.order, key);
    }
  }

  /** Trimming takes a key out exactly when as many others as the capacity are in front. */
  lemma TrimSpot(pushed: State, l: Limits, key: string)
    requires key in pushed.items && pushed.order != []
    requires var last := |pushed.order| - 1;
             IsLastOrNot(Front(pushed.order, key), Front(pushed.order[..last], key), key == pushed.order[last],
                         |pushed.items|)
    requires l.capacity > 0 ==> |pushed.items| <= l.capacity + 1
    ensures SpotOf(Trimmed(pushed, l.capacity), key)
            == if l.capacity > 0 && |Front(pushed.order, key)| >= l.capacity then Absent else SpotOf(pushed, key)
  {
  }

  lemma PushedPlace(s: State, key: string, other: string, e: Entry)
    requires Paired(s) && other !in s.items
    ensures var pushed := Pushed(s, other, e);
            var last := |pushed.order| - 1;
            && |pushed.items| == |s.items| + 1
            && Front(pushed.order, key) == (if other == key then {} else Front(s.order, key) + {other})
            && (key in pushed.items ==>
                  IsLastOrNot(Front(pushed.order, key), Front(pushed.order[..last], key),
                              key == pushed.order[last], |pushed.items|))
  {
    var pushed := Pushed(s, other, e);
    PushKeepsPairs(s, other, e);
    FrontPushed(s.order, key, other);
    if key in pushed.items {
      LastOrNot(pushed, key);
    }
  }

  /** A new key is pushed, and the last one goes if there are too many. */
  lemma PushSpot(s: State, l: Limits, key: string, other: string, e: Entry)
    requires Inv(s, l) && other !in s.items
    ensures SpotOf(Trimmed(Pushed(s, other, e), l.capacity), key)
            == if other == key then At(e, {}) else Passed(SpotOf(s, key), l, other)
  {
    var pushed := Pushed(s, other, e);
    PushedPlace(s, key, other, e);
    if key in pushed.items {
      TrimSpot(pushed, l, key);
    }
  }

  lemma OverwriteSpot(s: State, l: Limits, key: string, other: string, e: Entry)
    requires Inv(s, l) && other in s.items
    ensures SpotOf(Touched(s.(items := s.items[other := e]), other), key)
            == if other == key then At(e, {}) else Passed(SpotOf(s, key), l, other)
  {
    OverwriteKeepsPairs(s, other, e);
    var s' := s.(items := s.items[other := e]);
    TouchFront(s', key, other);
    if other != key {
      TouchOtherSpot(s', l, key, other);
    }
  }

  lemma StoreMovesSpot(s: State, l: Limits, key: string, stored: string, value: Value, now: int)
    requires Inv(s, l)
    ensures SpotOf(Stored(s, l, stored, value, now), key)
            == SpotAfter(SpotOf(s, key), l, key, Store(stored, value, now))
  {
    if stored in s.items {
      OverwriteSpot(s, l, key, stored, Entry(value, now + l.ttl));
    } else {
      PushSpot(s, l, key, stored, Entry(value, now + l.ttl));
    }
  }

  lemma HitMovesSpot(s: State, l: Limits, key: string, other: string)
    requires Inv(s, l) && other in s.items
    ensures SpotOf(Touched(s, other), key) == SpotAfter(SpotOf(s, key), l, key, Hit(other))
  {
    if other == key {
      TouchFront(s, key, other);
    } else {
      TouchOtherSpot(s, l, key, other);
    }
  }

  lemma StaleMovesSpot(s: State, l: Limits, key: string, other: string)
    requires Inv(s, l)
    ensures SpotOf(Dropped(s, other), key) == SpotAfter(SpotOf(s, key), l, key, Stale(other))
  {
    if other != key {
      FrontWithout(s.order, key, other);
    }
  }

  /** What any step does to any key's place is decided by that place and the step's effect. */
  lemma StepMovesSpot(s: State, l: Limits, key: string, step: Step)
    requires Inv(s, l)
    ensures SpotOf(Exec(s, l, step), key) == SpotAfter(SpotOf(s, key), l, key, EffectOf(s, step))
  {
    match EffectOf(s, step)
    case Store(stored, value, now) => StoreMovesSpot(s, l, key, stored, value, now);
    case Hit(other) => HitMovesSpot(s, l, key, other);
    case Stale(other) => StaleMovesSpot(s, l, key, other);
    case Nothing =>
  }

  // ---------------------------------------------------------------- memory decides the place

  predicate Fits(spot: Spot, l: Limits, m: Memory) {
    match m
    case Never => spot == Absent
    case Memory(value, storedAt, touched, ahead, crowded, stale) =>
      && spot == (if Present(m) then At(Entry(value, storedAt + l.ttl), ahead) else Absent)
      && ahead <= touched
      && (crowded ==> 0 < l.capacity <= |touched|)
  }

  lemma CrowdFits(spot: Spot, l: Limits, m: Memory, other: string)
    requires Fits(spot, l, m)
    ensures Fits(Passed(spot, l, other), l, Crowd(m, l, other))
  {
    if m.Memory? {
      var m' := Crowd(m, l, other);
      SubsetIsSmaller(m'.ahead, m'.touched);
      SubsetIsSmaller(m.touched, m'.touched);
    }
  }

  lemma EffectFits(spot: Spot, l: Limits, key: string, m: Memory, e: Effect)
    requires Fits(spot, l, m) && (e.Hit? && e.key == key ==> spot.At?)
    ensures Fits(SpotAfter(spot, l, key, e), l, Next(m, l, key, e))
  {
    if (e.Store? || e.Hit?) && e.key != key {
      CrowdFits(spot, l, m, e.key);
    }
  }

  lemma StepFits(s: State, l: Limits, key: string, m: Memory, step: Step)
    requires Inv(s, l) && Fits(SpotOf(s, key), l, m)
    ensures Fits(SpotOf(Exec(s, l, step), key), l, Next(m, l, key, EffectOf(s, step)))
  {
    StepMovesSpot(s, l, key, step);
    EffectFits(SpotOf(s, key), l, key, m, EffectOf(s, step));
  }

  /** In every state of every run, a key is present exactly when its memory says so, with the
      value last stored, and the keys in front of it are the ones its memory holds ahead. */
  lemma {:induction false} MemoryDecidesSpot(h: History<Step, State>, l: Limits, key: string, memories: seq<Memory>,
                                             k: nat)
    requires IsHistory(h, l) && Remembers(h, l, key, memories) && k <= |h.steps|
    ensures Fits(SpotOf(h.worlds[k], key), l, memories[k])
  {
    if k > 0 {
      MemoryDecidesSpot(h, l, key, memories, k - 1);
      InvAlways(h, l, k - 1);
      NextWorld(h, NEW, Execs(l), k - 1);
      assert RemembersAt(h, l, key, memories, k - 1);
      StepFits(h.worlds[k - 1], l, key, memories[k - 1], h.steps[k - 1]);
    }
  }

  // ---------------------------------------------------------------- what callers see

  function EffectAt(h: History<Step, State>, k: nat): Effect
    requires k < |h.steps| && k < |h.worlds|
  {
    EffectOf(h.worlds[k], h.steps[k])
  }

  predicate Touches(e: Effect, key: string) {
    (e.Store? || e.Hit?) && e.key == key
  }

  predicate StoresAt(h: History<Step, State>, k: nat, key: string)
    requires k < |h.steps| && k < |h.worlds|
  {
    EffectAt(h, k).Store? && EffectAt(h, k).key == key
  }

  predicate TouchesAt(h: History<Step, State>, k: nat, key: string)
    requires k < |h.steps| && k < |h.worlds|
  {
    Touches(EffectAt(h, k), key)
  }

  /** Step `p` is the last before `k` that stored the key. */
  ghost predicate IsLastStore(h: History<Step, State>, p: nat, k: nat, key: string) {
    && p < k <= |h.steps| < |h.worlds|
    && StoresAt(h, p, key) && forall q: nat | p < q < k :: !StoresAt(h, q, key)
  }

  /** Step `r` is the last before `k` that stored the key or found it. */
  ghost predicate IsLastTouch(h: History<Step, State>, r: nat, k: nat, key: string) {
    && r < k <= |h.steps| < |h.worlds|
    && TouchesAt(h, r, key) && forall q: nat | r < q < k :: !TouchesAt(h, q, key)
  }

  /** The keys stored or found in steps `r` up to `k`. */
  ghost function TouchedIn(h: History<Step, State>, r: nat, k: nat): set<string>
    requires k <= |h.steps| < |h.worlds|
  {
    if k <= r then {}
    else
      var e := EffectAt(h, k - 1);
      TouchedIn(h, r, k - 1) + (if e.Store? || e.Hit? then {e.key} else {})
  }

  lemma {:induction false} MemoryTo(h: History<Step, State>, l: Limits, key: string, k: nat)
      returns (memories: seq<Memory>)
    requires |h.worlds| == |h.steps| + 1 && k <= |h.steps|
    ensures |memories| == k + 1 && memories[0] == Never
    ensures forall j: nat | j < k :: memories[j + 1] == Next(memories[j], l, key, EffectAt(h, j))
  {
    if k == 0 {
      return [Never];
    }
    var earlier := MemoryTo(h, l, key, k - 1);
    memories := earlier + [Next(earlier[k - 1], l, key, EffectAt(h, k - 1))];
  }

  /** Every key has a memory of every run. */
  lemma MemoryExists(h: History<Step, State>, l: Limits, key: string) returns (memories: seq<Memory>)
    requires IsHistory(h, l)
    ensures Remembers(h, l, key, memories)
  {
    memories := MemoryTo(h, l, key, |h.steps|);
    forall k: nat | k < |h.steps|
      ensures RemembersAt(h, l, key, memories, k)
    {
      assert EffectAt(h, k) == EffectOf(h.worlds[k], h.steps[k]);
    }
  }

  /** What a step does to its key, by the key's memory alone. */
  function EffectBy(m: Memory, l: Limits, step: Step): Effect {
    match step
    case Get(key, now) =>
      if !Present(m) then Nothing else if now > m.storedAt + l.ttl then Stale(key) else Hit(key)
    case Set(key, value, now) => Store(key, value, now)
    case Reload(key, now, loaded) =>
      if Present(m) && now < m.storedAt + l.ttl then Hit(key)
      else if loaded.Some? then Store(key, loaded.value, now)
      else Nothing
  }

  /** So the memories of all keys go on by themselves: no effect needs the shard's map or list. */
  lemma EffectsNeedNoShard(h: History<Step, State>, l: Limits, k: nat, memories: seq<Memory>)
    requires IsHistory(h, l) && k < |h.steps| && Remembers(h, l, h.steps[k].key, memories)
    ensures EffectAt(h, k) == EffectBy(memories[k], l, h.steps[k])
  {
    MemoryDecidesSpot(h, l, h.steps[k].key, memories, k);
  }

  /** A memory is of the last store, the last touch and what was touched since. */
  ghost predicate Recalls(h: History<Step, State>, l: Limits, key: string, m: Memory, k: nat, p: nat, r: nat)
    requires k <= |h.steps| < |h.worlds| && m.Memory?
  {
    && p <= r && IsLastStore(h, p, k, key) && IsLastTouch(h, r, k, key)
    && EffectAt(h, p) == Store(key, m.value, m.storedAt)
    && m.touched == TouchedIn(h, r + 1, k) && key !in m.touched
  }

  lemma RecallsOneMore(h: History<Step, State>, l: Limits, key: string, m: Memory, k: nat, p: nat, r: nat)
      returns (p': nat, r': nat)
    requires 0 < k <= |h.steps| < |h.worlds| && Next(m, l, key, EffectAt(h, k - 1)).Memory?
    requires m.Memory? ==> Recalls(h, l, key, m, k - 1, p, r)
    ensures Recalls(h, l, key, Next(m, l, key, EffectAt(h, k - 1)), k, p', r')
    ensures StoresAt(h, k - 1, key) || p' == p
  {
    p', r' := if StoresAt(h, k - 1, key) then k - 1 else p, if TouchesAt(h, k - 1, key) then k - 1 else r;
  }

  lemma {:induction false} MemoryRecalls(h: History<Step, State>, l: Limits, key: string, memories: seq<Memory>, k: nat)
      returns (p: nat, r: nat)
    requires Remembers(h, l, key, memories) && k <= |h.steps| && memories[k].Memory?
    ensures Recalls(h, l, key, memories[k], k, p, r)
  {
    assert RemembersAt(h, l, key, memories, k - 1);
    p, r := 0, 0;
    if memories[k - 1].Memory? {
      p, r := MemoryRecalls(h, l, key, memories, k - 1);
    }
    p, r := RecallsOneMore(h, l, key, memories[k - 1], k, p, r);
  }

  /** A key found stale was asked for after it had expired. */
  lemma {:induction false} StaleWasLate(h: History<Step, State>, l: Limits, key: string, memories: seq<Memory>, k: nat)
    requires IsHistory(h, l) && Remembers(h, l, key, memories) && k <= |h.steps|
    requires memories[k].Memory? && memories[k].stale
    ensures exists q: nat | q < k :: h.steps[q].now > memories[k].storedAt + l.ttl
  {
    assert RemembersAt(h, l, key, memories, k - 1);
    if memories[k - 1].Memory? && memories[k - 1].stale {
      StaleWasLate(h, l, key, memories, k - 1);
    } else {
      MemoryDecidesSpot(h, l, key, memories, k - 1);
      assert h.steps[k - 1].now > memories[k].storedAt + l.ttl;
    }
  }

  /** A Get answers exactly when the key is present by its memory and not past its TTL. */
  lemma GetIsExact(h: History<Step, State>, l: Limits, k: nat, key: string, now: int, memories: seq<Memory>)
    requires IsHistory(h, l) && Remembers(h, l, key, memories) && k < |h.steps| && h.steps[k] == Get(key, now)
    ensures var m := memories[k];
            Answer(h.worlds[k], l, h.steps[k])
            == if Present(m) && now <= m.storedAt + l.ttl then Some(m.value) else None
  {
    MemoryDecidesSpot(h, l, key, memories, k);
  }

  /** The second half of GetOrLoad answers from the cache exactly when the key is present by its
      memory and strictly before its expiry; otherwise it answers what the loader gave. */
  lemma ReloadIsExact(h: History<Step, State>, l: Limits, k: nat, key: string, now: int, loaded: Option<Value>,
                      memories: seq<Memory>)
    requires IsHistory(h, l) && Remembers(h, l, key, memories) && k < |h.steps|
    requires h.steps[k] == Reload(key, now, loaded)
    ensures var m := memories[k];
            Answer(h.worlds[k], l, h.steps[k])
            == if Present(m) && now < m.storedAt + l.ttl then Some(m.value) else loaded
  {
    MemoryDecidesSpot(h, l, key, memories, k);
  }

  lemma LastStoreIsUnique(h: History<Step, State>, k: nat, key: string, p: nat, q: nat)
    requires IsLastStore(h, p, k, key) && IsLastStore(h, q, k, key)
    ensures p == q
  {
  }

  /** A hit returns the value last stored under the key, and not later than the TTL after. */
  lemma HitsReturnLastStored(h: History<Step, State>, l: Limits, k: nat, key: string) returns (p: nat)
    requires IsHistory(h, l) && k < |h.steps| && EffectAt(h, k) == Hit(key)
    ensures IsLastStore(h, p, k, key)
    ensures Answer(h.worlds[k], l, h.steps[k]) == Some(EffectAt(h, p).value)
    ensures h.steps[k].now - EffectAt(h, p).now <= l.ttl
    ensures h.steps[k].Reload? ==> h.steps[k].now - EffectAt(h, p).now < l.ttl
  {
    var memories := MemoryExists(h, l, key);
    MemoryDecidesSpot(h, l, key, memories, k);
    var r: nat;
    p, r := MemoryRecalls(h, l, key, memories, k);
  }

  /** With a clock that does not run backwards, a key that was stored, has not expired and is yet
      missing was crowded out: since it was last stored or found, at least `capacity` other keys
      were. */
  lemma MissingWasCrowdedOut(h: History<Step, State>, l: Limits, k: nat, key: string, p: nat, now: int) returns (r: nat)
    requires IsHistory(h, l) && k <= |h.steps| && IsLastStore(h, p, k, key)
    requires forall q: nat | q < k :: h.steps[q].now <= now
    requires key !in h.worlds[k].items && now <= EffectAt(h, p).now + l.ttl
    ensures IsLastTouch(h, r, k, key)
    ensures 0 < l.capacity <= |TouchedIn(h, r + 1, k)| && key !in TouchedIn(h, r + 1, k)
  {
    var memories := MemoryExists(h, l, key);
    MemoryDecidesSpot(h, l, key, memories, k);
    StoredIsRemembered(h, l, key, memories, p, k);
    var p': nat;
    p', r := MemoryRecalls(h, l, key, memories, k);
    LastStoreIsUnique(h, k, key, p, p');
    if memories[k].stale {
      StaleWasLate(h, l, key, memories, k);
    }
  }

  lemma {:induction false} StoredIsRemembered(h: History<Step, State>, l: Limits, key: string, memories: seq<Memory>,
                                              p: nat, k: nat)
    requires IsHistory(h, l) && Remembers(h, l, key, memories) && p < k <= |h.steps| && StoresAt(h, p, key)
    ensures memories[k].Memory?
  {
    assert RemembersAt(h, l, key, memories, k - 1);
    if p < k - 1 {
      StoredIsRemembered(h, l, key, memories, p, k - 1);
    }
  }
}
