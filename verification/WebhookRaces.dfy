/** Webhook handlers and reconcilers at work at once (subscription-core: webhook/processor.go,
    reconcile): a handler marks its event, later looks at the row, and later writes; a reconciler
    looks at the row its answer was asked for, and later writes.  Others come in between, and a
    worker may stop anywhere.  The bust that follows a write is in `EntitlementRaces`. */
module WebhookRaces {
  import opened Collections
  import opened Histories
  import opened SubscriptionDomain
  import opened Entitlements

  /** What a worker is about to do.  One that has looked at the row of `asked` knows how many writes
      there had been. */
  datatype Task =
    | ToLook(event: Event)
    | ToWrite(row: Subscription, asked: string, seen: nat, source: Option<string>, worker: nat)

  /** A write, by an event or by an answer of the provider. */
  datatype Written = Written(row: Subscription, source: Option<string>)

  datatype World = World(rows: Rows, events: set<string>, log: seq<Written>, tasks: set<Task>, looks: nat)

  datatype Step =
    | Mark(event: Event)
    | Look(event: Event)
    | Ask(asked: string, truth: Subscription)
    | Write(task: Task)
    | Stop(task: Task)

  const START: World := World(map[], {}, [], {}, 0)

  /** A step that is not possible changes nothing. */
  function Exec(w: World, s: Step): World {
    match s
    case Mark(e) =>
      if e.id in w.events then w else w.(events := w.events + {e.id}, tasks := w.tasks + {ToLook(e)})
    case Look(e) =>
      if ToLook(e) !in w.tasks then w
      else
        var left := w.(tasks := w.tasks - {ToLook(e)}, looks := w.looks + 1);
        var row := EventRow(w.rows, e);
        if row.None? then left
        else left.(tasks := left.tasks
                     + {ToWrite(row.value, e.subscription.providerSub, |w.log|, Some(e.id), w.looks)})
    case Ask(asked, truth) =>
      if !Accepts(w.rows, asked, truth) then w
      else w.(tasks := w.tasks + {ToWrite(truth, asked, |w.log|, None, w.looks)}, looks := w.looks + 1)
    case Write(t) =>
      if !t.ToWrite? || t !in w.tasks then w
      else w.(rows := w.rows[t.row.providerSub := t.row], log := w.log + [Written(t.row, t.source)],
              tasks := w.tasks - {t})
    case Stop(t) => w.(tasks := w.tasks - {t})
  }

  ghost predicate IsHistory(h: History<Step, World>) {
    Follows(h, START, Exec)
  }

  predicate WritesAt(h: History<Step, World>, k: nat)
    requires k < |h.steps| && k < |h.worlds|
  {
    h.steps[k].Write? && h.steps[k].task.ToWrite? && h.steps[k].task in h.worlds[k].tasks
  }

  /** Three steps in a row are one call of the handler. */
  lemma UndisturbedHandlerHandles(t: Tables, c: Cached, w: World, e: Event)
    requires t.byProvider == w.rows && t.events == w.events && e.id !in t.events && ToLook(e) !in w.tasks
    ensures var after := HandleTo(t, c, Some(e)).0;
            var looked := Exec(Exec(w, Mark(e)), Look(e));
            match EventRow(w.rows, e)
            case None => looked.rows == after.byProvider && looked.events == after.events
            case Some(row) =>
              var task := ToWrite(row, e.subscription.providerSub, |w.log|, Some(e.id), w.looks);
              var written := Exec(looked, Write(task));
              task in looked.tasks && written.rows == after.byProvider && written.events == after.events
  {
  }

  /** Asking and writing with nothing in between is one reconciliation. */
  lemma UndisturbedReconcilerReconciles(t: Tables, c: Cached, w: World, asked: string, truth: Subscription)
    requires t.byProvider == w.rows
    ensures var after := ReconcileTo(t, c, asked, Some(truth)).0;
            var looked := Exec(w, Ask(asked, truth));
            var task := ToWrite(truth, asked, |w.log|, None, w.looks);
            if Accepts(w.rows, asked, truth) then
              && task in looked.tasks && looked.looks > w.looks
              && Exec(looked, Write(task)).rows == after.byProvider
            else looked.rows == after.byProvider
  {
  }

  // ---------------------------------------------------------------- rows and the log

  function RowIn(log: seq<Written>, id: string): Option<Subscription> {
    if log == [] then None
    else
      var last := log[|log| - 1].row;
      if last.providerSub == id then Some(last) else RowIn(log[..|log| - 1], id)
  }

  predicate RowIsLast(w: World, id: string) {
    RowIn(w.log, id) == if id in w.rows then Some(w.rows[id]) else None
  }

  /** A worker writes nothing older than the row it looked at, and a handler looks at the row that it
      writes. */
  predicate TaskFits(w: World, t: Task) {
    t.ToWrite? ==>
      && t.seen <= |w.log| && (t.source.Some? ==> t.row.providerSub == t.asked)
      && var looked := RowIn(w.log[..t.seen], t.asked);
      looked.Some? ==> looked.value.updatedAt <= t.row.updatedAt
  }

  lemma {:induction false} RowIsOwn(log: seq<Written>, id: string)
    ensures RowIn(log, id).Some? ==> RowIn(log, id).value.providerSub == id
  {
    if log != [] {
      RowIsOwn(log[..|log| - 1], id);
    }
  }

  lemma StepKeepsLast(w: World, s: Step, id: string)
    requires RowIsLast(w, id)
    ensures RowIsLast(Exec(w, s), id)
  {
    if s.Write? && s.task.ToWrite? && s.task in w.tasks {
      var log := w.log + [Written(s.task.row, s.task.source)];
      assert log[..|log| - 1] == w.log;
    }
  }

  lemma {:induction false} RowsAreLast(h: History<Step, World>, k: nat, id: string)
    requires IsHistory(h) && k <= |h.steps|
    ensures RowIsLast(h.worlds[k], id)
  {
    if k > 0 {
      RowsAreLast(h, k - 1, id);
      NextWorld(h, START, Exec, k - 1);
      StepKeepsLast(h.worlds[k - 1], h.steps[k - 1], id);
    }
  }

  lemma LogGrows(h: History<Step, World>, k: nat)
    requires IsHistory(h) && k < |h.steps|
    ensures h.worlds[k].log <= h.worlds[k + 1].log && |h.worlds[k + 1].log| <= |h.worlds[k].log| + 1
  {
    NextWorld(h, START, Exec, k);
  }

  lemma FreshTaskFits(w: World, s: Step, t: Task)
    requires t in Exec(w, s).tasks && t !in w.tasks
    requires s.Look? ==> RowIsLast(w, s.event.subscription.providerSub)
    requires s.Ask? ==> RowIsLast(w, s.asked)
    ensures TaskFits(Exec(w, s), t)
  {
    assert w.log[..|w.log|] == w.log;
    if s.Look? {
      RowIsOwn(w.log, s.event.subscription.providerSub);
    }
  }

  lemma {:induction false} TasksFit(h: History<Step, World>, k: nat, t: Task)
    requires IsHistory(h) && k <= |h.steps| && t in h.worlds[k].tasks
    ensures TaskFits(h.worlds[k], t)
  {
    NextWorld(h, START, Exec, k - 1);
    var w, s := h.worlds[k - 1], h.steps[k - 1];
    if t in w.tasks {
      TasksFit(h, k - 1, t);
      LogGrows(h, k - 1);
      assert t.ToWrite? ==> w.log[..t.seen] == h.worlds[k].log[..t.seen];
    } else {
      if s.Look? {
        RowsAreLast(h, k - 1, s.event.subscription.providerSub);
      } else if s.Ask? {
        RowsAreLast(h, k - 1, s.asked);
      }
      FreshTaskFits(w, s, t);
    }
  }

  // ---------------------------------------------------------------- watermarks

  predicate WatermarkKept(before: Rows, after: Rows, id: string) {
    id in before ==> id in after && before[id].updatedAt <= after[id].updatedAt
  }

  predicate IsNewer(log: seq<Written>, j: nat, row: Subscription) {
    j < |log| && log[j].row.providerSub == row.providerSub && log[j].row.updatedAt > row.updatedAt
  }

  /** The step writes a row of the subscription after a newer one was written: since the worker
      looked, or ever if it looked at another subscription's row. */
  ghost predicate OvertakenAt(h: History<Step, World>, k: nat, id: string)
    requires k < |h.steps| && k < |h.worlds|
  {
    && WritesAt(h, k) && h.steps[k].task.row.providerSub == id
    && var t := h.steps[k].task;
    exists j: nat :: IsNewer(h.worlds[k].log, j, t.row) && (t.seen <= j || t.asked != id)
  }

  /** The write that a row comes from. */
  lemma {:induction false} LastWrite(log: seq<Written>, id: string) returns (j: nat)
    requires RowIn(log, id).Some?
    ensures j < |log| && log[j].row == RowIn(log, id).value && log[j].row.providerSub == id
    ensures forall n: nat | j < n <= |log| :: RowIn(log[..n], id) == RowIn(log, id)
  {
    var last := |log| - 1;
    assert log[..|log|] == log;
    if log[last].row.providerSub == id {
      j := last;
    } else {
      j := LastWrite(log[..last], id);
      forall n: nat | j < n <= |log|
        ensures RowIn(log[..n], id) == RowIn(log, id)
      {
        if n <= last {
          assert log[..last][..n] == log[..n];
        }
      }
    }
  }

  lemma StepKeepsWatermark(h: History<Step, World>, k: nat, id: string)
    requires IsHistory(h) && k < |h.steps| && !OvertakenAt(h, k, id)
    ensures WatermarkKept(h.worlds[k].rows, h.worlds[k + 1].rows, id)
  {
    NextWorld(h, START, Exec, k);
    var w := h.worlds[k];
    if WritesAt(h, k) && h.steps[k].task.row.providerSub == id && id in w.rows {
      var t := h.steps[k].task;
      RowsAreLast(h, k, id);
      TasksFit(h, k, t);
      var j := LastWrite(w.log, id);
      if t.seen <= j || t.asked != id {
        assert !IsNewer(w.log, j, t.row);
      } else {
        assert RowIn(w.log[..t.seen], id) == Some(w.rows[id]);
      }
    }
  }

  lemma {:induction false} WatermarkStays(h: History<Step, World>, p: nat, q: nat, id: string)
    requires IsHistory(h) && p <= q <= |h.steps|
    requires forall k: nat | p <= k < q :: !OvertakenAt(h, k, id)
    ensures WatermarkKept(h.worlds[p].rows, h.worlds[q].rows, id)
    decreases q
  {
    if p < q {
      WatermarkStays(h, p, q - 1, id);
      assert !OvertakenAt(h, q - 1, id);
      StepKeepsWatermark(h, q - 1, id);
    }
  }

  /** The moment after a write. */
  lemma {:induction false} MomentOf(h: History<Step, World>, k: nat, j: nat) returns (p: nat)
    requires IsHistory(h) && k <= |h.steps| && j < |h.worlds[k].log|
    ensures p <= k && h.worlds[p].log == h.worlds[k].log[..j + 1]
  {
    if j + 1 == |h.worlds[k].log| {
      assert h.worlds[k].log[..j + 1] == h.worlds[k].log;
      p := k;
    } else {
      LogGrows(h, k - 1);
      p := MomentOf(h, k - 1, j);
      assert h.worlds[k].log[..j + 1] == h.worlds[k - 1].log[..j + 1];
    }
  }

  lemma OvertakenLowers(h: History<Step, World>, k: nat, id: string) returns (p: nat)
    requires IsHistory(h) && k < |h.steps| && OvertakenAt(h, k, id)
    ensures p <= k && !WatermarkKept(h.worlds[p].rows, h.worlds[k + 1].rows, id)
  {
    NextWorld(h, START, Exec, k);
    var j: nat :| IsNewer(h.worlds[k].log, j, h.steps[k].task.row);
    p := MomentOf(h, k, j);
    RowsAreLast(h, p, id);
    assert RowIn(h.worlds[p].log, id) == Some(h.worlds[k].log[j].row);
  }

  /** A subscription's watermark never falls exactly when no worker writes over a newer row that it
      did not look at. */
  lemma WatermarksNeverFallIff(h: History<Step, World>, id: string)
    requires IsHistory(h)
    ensures (forall p, q | 0 <= p <= q <= |h.steps| :: WatermarkKept(h.worlds[p].rows, h.worlds[q].rows, id))
            <==> (forall k: nat | k < |h.steps| :: !OvertakenAt(h, k, id))
  {
    if forall k: nat | k < |h.steps| :: !OvertakenAt(h, k, id) {
      forall p, q | 0 <= p <= q <= |h.steps|
        ensures WatermarkKept(h.worlds[p].rows, h.worlds[q].rows, id)
      {
        WatermarkStays(h, p, q, id);
      }
    } else {
      var k: nat :| k < |h.steps| && OvertakenAt(h, k, id);
      var p := OvertakenLowers(h, k, id);
    }
  }

  /** Two events of a new subscription are handled at once: both handlers find no row, and the older
      event, written last, brings the canceled subscription back. */
  lemma OverlappingHandlersExample() returns (h: History<Step, World>)
    ensures IsHistory(h) && |h.steps| == 6 && OvertakenAt(h, 5, "p")
    ensures "p" in h.worlds[5].rows && "p" in h.worlds[6].rows
    ensures h.worlds[5].rows["p"].status == Canceled && h.worlds[6].rows["p"].status == Active
    ensures h.worlds[6].rows["p"].updatedAt < h.worlds[5].rows["p"].updatedAt
  {
    var row := Subscription("s", "c", "p", "gold", Active, 1, 0, 0, false, 0, 1);
    var created, canceled := Event("e1", Created, row), Event("e2", CanceledEvent, row.(updatedAt := 2));
    var early := ToWrite(row, "p", 0, Some("e1"), 0);
    var late := ToWrite(row.(status := Canceled, updatedAt := 2), "p", 0, Some("e2"), 1);
    var steps := [Mark(created), Mark(canceled), Look(created), Look(canceled), Write(late), Write(early)];
    h := StepsHaveHistory(steps, START, Exec);
    NextWorld(h, START, Exec, 0);
    NextWorld(h, START, Exec, 1);
    NextWorld(h, START, Exec, 2);
    NextWorld(h, START, Exec, 3);
    assert h.worlds[4].tasks == {early, late} && h.worlds[4].log == [];
    NextWorld(h, START, Exec, 4);
    NextWorld(h, START, Exec, 5);
    assert IsNewer(h.worlds[5].log, 0, row);
  }

  // ---------------------------------------------------------------- events

  function EventOf(t: Task): Option<string> {
    match t
    case ToLook(e) => Some(e.id)
    case ToWrite(_, _, _, source, _) => source
  }

  ghost predicate InFlight(w: World, x: string) {
    exists t :: t in w.tasks && EventOf(t) == Some(x)
  }

  ghost predicate IsWritten(w: World, x: string) {
    exists j: nat :: j < |w.log| && w.log[j].source == Some(x)
  }

  /** An event has one handler at most, and the handler is done once it has written. */
  ghost predicate EventFits(w: World, x: string) {
    && (InFlight(w, x) || IsWritten(w, x) ==> x in w.events)
    && !(InFlight(w, x) && IsWritten(w, x))
    && (forall t, u | t in w.tasks && u in w.tasks && EventOf(t) == EventOf(u) == Some(x) :: t == u)
    && (forall i, j | 0 <= i < j < |w.log| :: !(w.log[i].source == w.log[j].source == Some(x)))
  }

  lemma WorkerOf(w: World, t: Task, x: string)
    requires t in w.tasks && EventOf(t) == Some(x)
    ensures InFlight(w, x)
  {
  }

  /** Where a handler and a write of an event come from. */
  lemma EventComesFrom(w: World, s: Step, x: string)
    ensures InFlight(Exec(w, s), x) ==> InFlight(w, x) || (s.Mark? && s.event.id == x && x !in w.events)
    ensures IsWritten(Exec(w, s), x) ==> IsWritten(w, x) || (s.Write? && InFlight(w, x))
    ensures IsWritten(w, x) ==> IsWritten(Exec(w, s), x)
  {
    var w' := Exec(w, s);
    forall t | t in w'.tasks && EventOf(t) == Some(x)
      ensures InFlight(w, x) || (s.Mark? && s.event.id == x && x !in w.events)
    {
      if t in w.tasks {
        WorkerOf(w, t, x);
      } else if s.Look? {
        WorkerOf(w, ToLook(s.event), x);
      }
    }
    forall j: nat | j < |w'.log| && w'.log[j].source == Some(x)
      ensures IsWritten(w, x) || (s.Write? && InFlight(w, x))
    {
      if j < |w.log| {
        assert w.log[j].source == Some(x);
      } else {
        WorkerOf(w, s.task, x);
      }
    }
    forall j: nat | j < |w.log| && w.log[j].source == Some(x)
      ensures IsWritten(w', x)
    {
      assert w'.log[j].source == Some(x);
    }
  }

  lemma StepKeepsEvent(w: World, s: Step, x: string)
    requires EventFits(w, x)
    ensures EventFits(Exec(w, s), x)
  {
    EventComesFrom(w, s, x);
    var w' := Exec(w, s);
    forall t, u | t in w'.tasks && u in w'.tasks && EventOf(t) == EventOf(u) == Some(x)
      ensures t == u
    {
      assert t in w.tasks ==> InFlight(w, x);
    }
    forall i, j | 0 <= i < j < |w'.log| && w'.log[i].source == w'.log[j].source
      ensures w'.log[j].source != Some(x)
    {
      assert w.log[i].source == w'.log[i].source;
    }
  }

  lemma {:induction false} EventsFit(h: History<Step, World>, k: nat, x: string)
    requires IsHistory(h) && k <= |h.steps|
    ensures EventFits(h.worlds[k], x)
  {
    if k > 0 {
      EventsFit(h, k - 1, x);
      NextWorld(h, START, Exec, k - 1);
      StepKeepsEvent(h.worlds[k - 1], h.steps[k - 1], x);
    }
  }

  /** The event's handler stops, or finds the event stale or illegal. */
  predicate DropsAt(h: History<Step, World>, k: nat, x: string)
    requires k < |h.steps| && k < |h.worlds|
  {
    match h.steps[k]
    case Stop(t) => t in h.worlds[k].tasks && EventOf(t) == Some(x)
    case Look(e) => ToLook(e) in h.worlds[k].tasks && e.id == x && EventRow(h.worlds[k].rows, e).None?
    case _ => false
  }

  /** Marked, and neither in flight nor written: gone for good. */
  ghost predicate IsGone(w: World, x: string) {
    x in w.events && !InFlight(w, x) && !IsWritten(w, x)
  }

  lemma DroppedIsGone(h: History<Step, World>, k: nat, x: string)
    requires IsHistory(h) && k < |h.steps| && DropsAt(h, k, x)
    ensures IsGone(h.worlds[k + 1], x)
  {
    EventsFit(h, k, x);
    NextWorld(h, START, Exec, k);
    var w, s := h.worlds[k], h.steps[k];
    WorkerOf(w, if s.Stop? then s.task else ToLook(s.event), x);
  }

  lemma StepKeepsGone(w: World, s: Step, x: string)
    requires IsGone(w, x)
    ensures IsGone(Exec(w, s), x)
  {
    EventComesFrom(w, s, x);
  }

  lemma {:induction false} GoneStaysGone(h: History<Step, World>, p: nat, q: nat, x: string)
    requires IsHistory(h) && p <= q <= |h.steps| && IsGone(h.worlds[p], x)
    ensures IsGone(h.worlds[q], x)
    decreases q
  {
    if p < q {
      GoneStaysGone(h, p, q - 1, x);
      NextWorld(h, START, Exec, q - 1);
      StepKeepsGone(h.worlds[q - 1], h.steps[q - 1], x);
    }
  }

  /** A step that makes an event gone drops it. */
  lemma StepLosesOnlyDropped(h: History<Step, World>, k: nat, x: string)
    requires IsHistory(h) && k < |h.steps| && IsGone(h.worlds[k + 1], x)
    ensures IsGone(h.worlds[k], x) || DropsAt(h, k, x)
  {
    NextWorld(h, START, Exec, k);
    var w, w', s := h.worlds[k], h.worlds[k + 1], h.steps[k];
    EventComesFrom(w, s, x);
    if x !in w.events {
      WorkerOf(w', ToLook(s.event), x);
    } else if InFlight(w, x) {
      var t :| t in w.tasks && EventOf(t) == Some(x);
      HandlerMovesOn(w, s, t, x);
    }
  }

  /** A handler stays, writes, decides to write, or drops its event. */
  lemma HandlerMovesOn(w: World, s: Step, t: Task, x: string)
    requires t in w.tasks && EventOf(t) == Some(x)
    ensures || InFlight(Exec(w, s), x) || IsWritten(Exec(w, s), x) || s == Stop(t)
            || (t.ToLook? && s == Look(t.event) && EventRow(w.rows, t.event).None?)
  {
    var w' := Exec(w, s);
    if t in w'.tasks {
      WorkerOf(w', t, x);
    } else if s == Write(t) {
      assert w'.log[|w.log|].source == Some(x);
    } else if t.ToLook? && s == Look(t.event) && EventRow(w.rows, t.event).Some? {
      var row := EventRow(w.rows, t.event).value;
      WorkerOf(w', ToWrite(row, t.event.subscription.providerSub, |w.log|, Some(x), w.looks), x);
    }
  }

  lemma {:induction false} GoneWasDropped(h: History<Step, World>, k: nat, x: string) returns (i: nat)
    requires IsHistory(h) && k <= |h.steps| && IsGone(h.worlds[k], x)
    ensures i < k && DropsAt(h, i, x)
  {
    StepLosesOnlyDropped(h, k - 1, x);
    if DropsAt(h, k - 1, x) {
      i := k - 1;
    } else {
      i := GoneWasDropped(h, k - 1, x);
    }
  }

  /** A marked event is written at most once.  Once its handler is done, it has been written unless
      the handler stopped or found the event stale or illegal, and then it never will be, however
      often it is delivered again. */
  lemma EventIsWrittenIff(h: History<Step, World>, k: nat, x: string)
    requires IsHistory(h) && k <= |h.steps| && x in h.worlds[k].events && !InFlight(h.worlds[k], x)
    ensures IsWritten(h.worlds[k], x) <==> !exists i: nat | i < k :: DropsAt(h, i, x)
    ensures forall i, j | 0 <= i < j < |h.worlds[k].log| ::
              !(h.worlds[k].log[i].source == h.worlds[k].log[j].source == Some(x))
    ensures forall q: nat | k <= q <= |h.steps| :: IsWritten(h.worlds[q], x) == IsWritten(h.worlds[k], x)
  {
    EventsFit(h, k, x);
    if IsWritten(h.worlds[k], x) {
      if i: nat :| i < k && DropsAt(h, i, x) {
        DroppedIsGone(h, i, x);
        GoneStaysGone(h, i + 1, k, x);
      }
      forall q: nat | k <= q <= |h.steps|
        ensures IsWritten(h.worlds[q], x)
      {
        WrittenStays(h, k, q, x);
      }
    } else {
      var i := GoneWasDropped(h, k, x);
      forall q: nat | k <= q <= |h.steps|
        ensures !IsWritten(h.worlds[q], x)
      {
        GoneStaysGone(h, k, q, x);
      }
    }
  }

  lemma {:induction false} WrittenStays(h: History<Step, World>, p: nat, q: nat, x: string)
    requires IsHistory(h) && p <= q <= |h.steps| && IsWritten(h.worlds[p], x)
    ensures IsWritten(h.worlds[q], x)
    decreases q
  {
    if p < q {
      WrittenStays(h, p, q - 1, x);
      NextWorld(h, START, Exec, q - 1);
      EventComesFrom(h.worlds[q - 1], h.steps[q - 1], x);
    }
  }
}
