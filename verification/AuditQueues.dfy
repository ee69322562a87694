/** `frontend/src/lib/auditLog.ts`: a batched queue of audit events with re-queueing on failure.
    The send is awaited, so several batches can be on their way at once. */
module AuditQueues {

  const FLUSH_THRESHOLD := 10
  const REQUEUE_LIMIT := 100

  /** `serial` numbers the calls of `audit`. */
  datatype Entry = Entry(serial: nat, action: string)

  /** `flights` are the batches whose `fetch` has not settled, oldest first. */
  datatype State = State(audited: seq<Entry>, queue: seq<Entry>, timer: bool,
                         flights: seq<seq<Entry>>, handed: seq<Entry>, dropped: seq<Entry>)

  const INITIAL := State([], [], false, [], [], [])

  /** `token` tells whether a token is stored when a flush looks for it. */
  datatype Op =
    | Audit(action: string, token: bool)
    | TimerFires(token: bool)
    | PageHidden(token: bool)
    | FlushNow(token: bool)
    | SendSettled(i: nat)
    | SendFailed(i: nat)

  function Flushed(s: State, token: bool): State {
    if s.queue == [] then s
    else if !token then s.(queue := [], dropped := s.dropped + s.queue)
    else s.(queue := [], flights := s.flights + [s.queue])
  }

  function Without<T>(s: seq<T>, i: nat): seq<T>
    requires i < |s|
  {
    s[..i] + s[i + 1..]
  }

  predicate Enabled(s: State, op: Op) {
    match op
    case TimerFires(_) => s.timer
    case SendSettled(i) => i < |s.flights|
    case SendFailed(i) => i < |s.flights|
    case _ => true
  }

  function Step(s: State, op: Op): State
    requires Enabled(s, op)
  {
    match op
    case Audit(action, token) =>
      var e := Entry(|s.audited|, action);
      var s' := s.(audited := s.audited + [e], queue := s.queue + [e]);
      if |s'.queue| >= FLUSH_THRESHOLD then Flushed(s', token) else s'.(timer := true)
    case TimerFires(token) => Flushed(s.(timer := false), token)
    case PageHidden(token) => Flushed(s, token)
    case FlushNow(token) => Flushed(s.(timer := false), token)
    case SendSettled(i) => s.(flights := Without(s.flights, i), handed := s.handed + s.flights[i])
    case SendFailed(i) =>
      var s' := s.(flights := Without(s.flights, i));
      if |s.queue| < REQUEUE_LIMIT then s'.(queue := s.flights[i] + s.queue)
      else s'.(dropped := s.dropped + s.flights[i])
  }

  /** The module variables `queue` and `flushTimer`; what happened to the events that left the
      queue is recorded beside them. */
  class AuditLog {
    var queue: seq<Entry>
    var flushTimer: bool
    ghost var audited: seq<Entry>
    ghost var flights: seq<seq<Entry>>
    ghost var handed: seq<Entry>
    ghost var dropped: seq<Entry>
    var count: nat

    ghost predicate Valid()
      reads this
    {
      count == |audited|
    }

    ghost function View(): State
      reads this
    {
      State(audited, queue, flushTimer, flights, handed, dropped)
    }

    constructor ()
      ensures Valid() && View() == INITIAL
    {
      queue, flushTimer, count := [], false, 0;
      audited, flights, handed, dropped := [], [], [], [];
    }

    /** Up to its `await`: the batch that goes to the network, if any. */
    method Flush(token: bool) returns (sent: seq<Entry>)
      requires Valid()
      modifies this
      ensures Valid() && View() == Flushed(old(View()), token)
      ensures sent == if token then old(queue) else []
    {
      sent := [];
      if |queue| == 0 { return; }
      var batch := queue;
      queue := [];
      if !token {
        dropped := dropped + batch;
        return;
      }
      flights := flights + [batch];
      sent := batch;
    }

    method Audit(action: string, token: bool)
      requires Valid()
      modifies this
      ensures Valid() && View() == Step(old(View()), Op.Audit(action, token))
    {
      var queued := Entry(count, action);
      queue := queue + [queued];
      audited, count := audited + [queued], count + 1;
      if |queue| >= FLUSH_THRESHOLD {
        var _ := Flush(token);
      } else {
        flushTimer := true;
      }
    }

    method OnTimer(token: bool)
      requires Valid() && flushTimer
      modifies this
      ensures Valid() && View() == Step(old(View()), TimerFires(token))
    {
      flushTimer := false;
      var _ := Flush(token);
    }

    method FlushAuditLog(token: bool)
      requires Valid()
      modifies this
      ensures Valid() && View() == Step(old(View()), FlushNow(token))
    {
      if flushTimer {
        flushTimer := false;
      }
      var _ := Flush(token);
    }

    method OnSettled(ghost i: nat)
      requires Valid() && i < |flights|
      modifies this
      ensures Valid() && View() == Step(old(View()), SendSettled(i))
    {
      handed := handed + flights[i];
      flights := Without(flights, i);
    }

    /** The `catch` block of the flush that sent `batch`. */
    method OnFailed(batch: seq<Entry>, ghost i: nat)
      requires Valid() && i < |flights| && flights[i] == batch
      modifies this
      ensures Valid() && View() == Step(old(View()), SendFailed(i))
    {
      flights := Without(flights, i);
      if |queue| < REQUEUE_LIMIT {
        queue := batch + queue;
      } else {
        dropped := dropped + batch;
      }
    }
  }

  // ---------------------------------------------------------------------------------------
  // Whole runs

  /** `ss[i]` is the state before `ops[i]`. */
  ghost predicate IsRun(ss: seq<State>, ops: seq<Op>) {
    |ss| == |ops| + 1 && ss[0] == INITIAL &&
    forall i | 0 <= i < |ops| :: Enabled(ss[i], ops[i]) && ss[i + 1] == Step(ss[i], ops[i])
  }

  function Flat(batches: seq<seq<Entry>>): seq<Entry> {
    if batches == [] then [] else batches[0] + Flat(batches[1..])
  }

  lemma {:induction false} FlatAppend(batches: seq<seq<Entry>>, batch: seq<Entry>)
    ensures Flat(batches + [batch]) == Flat(batches) + batch
  {
    if batches != [] {
      assert (batches + [batch])[1..] == batches[1..] + [batch];
      FlatAppend(batches[1..], batch);
    }
  }

  lemma {:induction false} FlatWithout(batches: seq<seq<Entry>>, i: nat)
    requires i < |batches|
    ensures multiset(Flat(batches)) == multiset(batches[i]) + multiset(Flat(Without(batches, i)))
  {
    if i == 0 {
      assert Without(batches, 0) == batches[1..];
    } else {
      FlatWithout(batches[1..], i - 1);
      assert Without(batches, i)[1..] == Without(batches[1..], i - 1);
    }
  }

  ghost predicate Conserved(s: State) {
    multiset(s.audited) == multiset(s.queue) + multiset(Flat(s.flights)) + multiset(s.handed) + multiset(s.dropped)
  }

  /** Nothing is lost or duplicated: every audited event is queued, on its way, handed over or
      dropped, exactly once, in every run. */
  lemma {:induction false} EventsAreConserved(ss: seq<State>, ops: seq<Op>, n: nat)
    requires IsRun(ss, ops) && n < |ss|
    ensures Conserved(ss[n])
  {
    if n > 0 {
      EventsAreConserved(ss, ops, n - 1);
      assert ss[n - 1 + 1] == Step(ss[n - 1], ops[n - 1]);
      StepConserves(ss[n - 1], ops[n - 1]);
    }
  }

  lemma StepConserves(s: State, op: Op)
    requires Enabled(s, op) && Conserved(s)
    ensures Conserved(Step(s, op))
  {
    match op
    case Audit(action, token) =>
      var e := Entry(|s.audited|, action);
      var s' := s.(audited := s.audited + [e], queue := s.queue + [e]);
      FlushConserves(s', token);
    case TimerFires(token) => FlushConserves(s.(timer := false), token);
    case PageHidden(token) => FlushConserves(s, token);
    case FlushNow(token) => FlushConserves(s.(timer := false), token);
    case _ => SettlingConserves(s, op);
  }

  lemma SettlingConserves(s: State, op: Op)
    requires Enabled(s, op) && Conserved(s) && (op.SendSettled? || op.SendFailed?)
    ensures Conserved(Step(s, op))
  {
    FlatWithout(s.flights, op.i);
  }

  lemma FlushConserves(s: State, token: bool)
    requires Conserved(s)
    ensures Conserved(Flushed(s, token))
  {
    FlatAppend(s.flights, s.queue);
  }

  /** Events are dropped by exactly two kinds of step: a flush of a nonempty queue without a
      token, and a failed send that finds 100 or more newer events queued. */
  lemma DropsExactlyWhen(ss: seq<State>, ops: seq<Op>, n: nat)
    requires IsRun(ss, ops) && n < |ops|
    ensures ss[n + 1].dropped != ss[n].dropped <==>
            match ops[n]
            case Audit(_, token) => !token && |ss[n].queue| + 1 >= 10
            case SendFailed(_) => |ss[n].queue| >= 100
            case SendSettled(_) => false
            case _ => !ops[n].token && ss[n].queue != []
  {
    NoEmptyBatches(ss, ops, n);
    var s := ss[n];
    match ops[n]
    case Audit(action, token) =>
      var e := Entry(|s.audited|, action);
      FlushDrops(s.(audited := s.audited + [e], queue := s.queue + [e]), token);
    case TimerFires(token) => FlushDrops(s.(timer := false), token);
    case PageHidden(token) => FlushDrops(s, token);
    case FlushNow(token) => FlushDrops(s.(timer := false), token);
    case SendSettled(i) =>
    case SendFailed(i) =>
      assert s.flights[i] in s.flights;
      assert |s.dropped + s.flights[i]| > |s.dropped|;
  }

  lemma FlushDrops(s: State, token: bool)
    ensures Flushed(s, token).dropped != s.dropped <==> s.queue != [] && !token
  {
    assert s.queue != [] ==> |s.dropped + s.queue| > |s.dropped|;
  }

  lemma {:induction false} NoEmptyBatches(ss: seq<State>, ops: seq<Op>, n: nat)
    requires IsRun(ss, ops) && n < |ss|
    ensures forall b | b in ss[n].flights :: b != []
  {
    if n > 0 {
      NoEmptyBatches(ss, ops, n - 1);
      var s, op := ss[n - 1], ops[n - 1];
      assert ss[n - 1 + 1] == Step(s, op);
      if op.SendSettled? || op.SendFailed? {
        assert forall b | b in Without(s.flights, op.i) :: b in s.flights;
      } else {
        assert forall b | b in ss[n].flights :: b in s.flights || b == ss[n].flights[|s.flights|];
      }
    }
  }

  ghost predicate InAuditOrder(s: seq<Entry>) {
    forall i, j | 0 <= i < j < |s| :: s[i].serial < s[j].serial
  }

  /** What was handed over, then what is on its way, then what is queued. */
  function Pipeline(s: State): seq<Entry> { s.handed + Flat(s.flights) + s.queue }

  ghost predicate Ordered(s: State) {
    InAuditOrder(Pipeline(s)) && forall e | e in Pipeline(s) :: e.serial < |s.audited|
  }

  /** If no flush starts while another one is on its way, events are handed over in the order
      in which they were audited, failures, re-queueing and drops included. */
  lemma {:induction false} HandOverInAuditOrder(ss: seq<State>, ops: seq<Op>, n: nat)
    requires IsRun(ss, ops) && n < |ss|
    requires forall i | 0 <= i <= n :: |ss[i].flights| <= 1
    ensures Ordered(ss[n]) && InAuditOrder(ss[n].handed)
  {
    if n > 0 {
      HandOverInAuditOrder(ss, ops, n - 1);
      assert ss[n - 1 + 1] == Step(ss[n - 1], ops[n - 1]);
      assert |ss[n].flights| <= 1;
      StepKeepsOrder(ss[n - 1], ops[n - 1]);
    }
    assert forall i | 0 <= i < |ss[n].handed| :: ss[n].handed[i] == Pipeline(ss[n])[i];
  }

  lemma StepKeepsOrder(s: State, op: Op)
    requires Enabled(s, op) && Ordered(s) && |s.flights| <= 1 && |Step(s, op).flights| <= 1
    ensures Ordered(Step(s, op))
  {
    match op
    case Audit(action, token) =>
      var e := Entry(|s.audited|, action);
      var s' := s.(audited := s.audited + [e], queue := s.queue + [e]);
      assert Pipeline(s') == Pipeline(s) + [e];
      FlushKeepsOrder(s', token);
    case TimerFires(token) => FlushKeepsOrder(s.(timer := false), token);
    case PageHidden(token) => FlushKeepsOrder(s, token);
    case FlushNow(token) => FlushKeepsOrder(s.(timer := false), token);
    case _ => SettlingKeepsOrder(s, op);
  }

  lemma SettlingKeepsOrder(s: State, op: Op)
    requires Enabled(s, op) && Ordered(s) && |s.flights| <= 1 && (op.SendSettled? || op.SendFailed?)
    ensures Ordered(Step(s, op))
  {
    assert s.flights == [s.flights[0]];
    assert Flat(s.flights) == s.flights[0];
    if op.SendSettled? || |s.queue| < REQUEUE_LIMIT {
      assert Pipeline(Step(s, op)) == Pipeline(s);
    } else {
      assert Pipeline(Step(s, op)) == s.handed + s.queue;
      CutKeepsOrder(s.handed, s.flights[0], s.queue);
    }
  }

  lemma FlushKeepsOrder(s: State, token: bool)
    requires Ordered(s)
    ensures Ordered(Flushed(s, token))
  {
    FlatAppend(s.flights, s.queue);
    if s.queue != [] && token {
      assert Pipeline(Flushed(s, token)) == Pipeline(s);
    } else if s.queue != [] {
      assert Pipeline(Flushed(s, token)) + s.queue == Pipeline(s);
      CutKeepsOrder(Pipeline(Flushed(s, token)), s.queue, []);
      assert Pipeline(Flushed(s, token)) + [] == Pipeline(Flushed(s, token));
    }
  }

  lemma CutKeepsOrder(a: seq<Entry>, b: seq<Entry>, c: seq<Entry>)
    requires InAuditOrder(a + b + c) || (c == [] && InAuditOrder(a + b))
    ensures InAuditOrder(a + c)
  {
    var abc := a + b + c;
    assert c == [] ==> abc == a + b;
    forall i, j | 0 <= i < j < |a + c| ensures (a + c)[i].serial < (a + c)[j].serial {
      var i', j' := if i < |a| then i else i + |b|, if j < |a| then j else j + |b|;
      assert abc[i'] == (a + c)[i] && abc[j'] == (a + c)[j];
    }
  }

  /** At most `k` batches are ever on their way at once. */
  ghost predicate AtMost(ss: seq<State>, k: nat) { forall i | 0 <= i < |ss| :: |ss[i].flights| <= k }

  /** All runs with at most `k` batches on their way hand over in audit order. */
  ghost predicate InOrderWithin(k: nat) {
    forall ss: seq<State>, ops | IsRun(ss, ops) && AtMost(ss, k) :: InAuditOrder(ss[|ops|].handed)
  }

  /** The order is certain exactly without overlap: two batches on their way are enough to lose
      it. */
  lemma InOrderExactlyWithoutOverlap(k: nat)
    ensures InOrderWithin(k) <==> k <= 1
  {
    if k <= 1 {
      forall ss: seq<State>, ops | IsRun(ss, ops) && AtMost(ss, k) ensures InAuditOrder(ss[|ops|].handed) {
        HandOverInAuditOrder(ss, ops, |ops|);
      }
    } else {
      var ss, ops := OverlappingFlushesReorder();
      assert AtMost(ss, k);
    }
  }

  /** The first of two batches fails after the second one was handed over, and is sent again
      behind it. */
  lemma OverlappingFlushesReorder() returns (ss: seq<State>, ops: seq<Op>)
    ensures IsRun(ss, ops) && AtMost(ss, 2) && !InAuditOrder(ss[|ops|].handed)
  {
    var a, b := Entry(0, "project.create"), Entry(1, "project.delete");
    ss, ops := [INITIAL], [];
    ss, ops := Extend(ss, ops, Audit("project.create", true), State([a], [a], true, [], [], []));
    ss, ops := Extend(ss, ops, PageHidden(true), State([a], [], true, [[a]], [], []));
    ss, ops := Extend(ss, ops, Audit("project.delete", true), State([a, b], [b], true, [[a]], [], []));
    ss, ops := Extend(ss, ops, PageHidden(true), State([a, b], [], true, [[a], [b]], [], []));
    assert Without([[a], [b]], 1) == [[a]] && Without([[a]], 0) == [];
    ss, ops := Extend(ss, ops, SendSettled(1), State([a, b], [], true, [[a]], [b], []));
    ss, ops := Extend(ss, ops, SendFailed(0), State([a, b], [a], true, [], [b], []));
    ss, ops := Extend(ss, ops, PageHidden(true), State([a, b], [], true, [[a]], [b], []));
    ss, ops := Extend(ss, ops, SendSettled(0), State([a, b], [], true, [], [b, a], []));
    assert ss[|ops|].handed[0].serial == 1 && ss[|ops|].handed[1].serial == 0;
  }

  lemma Extend(ss: seq<State>, ops: seq<Op>, op: Op, s: State) returns (ss': seq<State>, ops': seq<Op>)
    requires IsRun(ss, ops) && Enabled(ss[|ops|], op) && s == Step(ss[|ops|], op)
    ensures IsRun(ss', ops') && ss'[|ops'|] == s
    ensures forall k: nat | AtMost(ss, k) && |s.flights| <= k :: AtMost(ss', k)
  {
    ss', ops' := ss + [s], ops + [op];
    forall i | 0 <= i < |ops'| ensures Enabled(ss'[i], ops'[i]) && ss'[i + 1] == Step(ss'[i], ops'[i]) {
      if i < |ops| { assert ss'[i] == ss[i] && ss'[i + 1] == ss[i + 1]; }
    }
  }

  /** Event `k` put a failed batch back while no timer was set, and since then batches have only
      settled or failed. */
  ghost predicate PutBack(ss: seq<State>, ops: seq<Op>, k: nat, n: nat)
    requires n <= |ops| < |ss|
  {
    && k < n && ops[k].SendFailed? && !ss[k].timer && |ss[k].queue| < REQUEUE_LIMIT
    && forall j | k < j < n :: ops[j].SendSettled? || ops[j].SendFailed?
  }

  /** A re-queued batch schedules no flush: queued events wait without a timer exactly when a
      failed batch was put back without one and nothing was audited or flushed since. */
  lemma WaitsWithoutTimerExactlyWhen(ss: seq<State>, ops: seq<Op>, n: nat)
    requires IsRun(ss, ops) && n < |ss|
    ensures ss[n].queue != [] && !ss[n].timer <==> exists k :: PutBack(ss, ops, k, n)
  {
    if ss[n].queue != [] && !ss[n].timer {
      LastPutBack(ss, ops, n);
    }
    forall k | PutBack(ss, ops, k, n) ensures ss[n].queue != [] && !ss[n].timer {
      StillWaiting(ss, ops, k, n);
    }
  }

  lemma {:induction false} LastPutBack(ss: seq<State>, ops: seq<Op>, n: nat)
    requires IsRun(ss, ops) && n < |ss| && ss[n].queue != [] && !ss[n].timer
    ensures exists k :: PutBack(ss, ops, k, n)
  {
    var m := n - 1;
    assert ss[m + 1] == Step(ss[m], ops[m]);
    if ops[m].SendFailed? && |ss[m].queue| < REQUEUE_LIMIT {
      assert PutBack(ss, ops, m, n);
    } else {
      assert ops[m].SendSettled? || ops[m].SendFailed?;
      LastPutBack(ss, ops, m);
      var k :| PutBack(ss, ops, k, m);
      assert PutBack(ss, ops, k, n);
    }
  }

  lemma {:induction false} StillWaiting(ss: seq<State>, ops: seq<Op>, k: nat, n: nat)
    requires IsRun(ss, ops) && n < |ss| && PutBack(ss, ops, k, n)
    ensures ss[n].queue != [] && !ss[n].timer
  {
    var m := n - 1;
    assert ss[m + 1] == Step(ss[m], ops[m]);
    NoEmptyBatches(ss, ops, m);
    assert ss[m].flights[ops[m].i] in ss[m].flights;
    if k < m {
      assert PutBack(ss, ops, k, m);
      StillWaiting(ss, ops, k, m);
    }
  }

  /** ... and that does happen. */
  lemma FailedBatchWaitsWithoutTimer()
    ensures exists ss: seq<State>, ops :: IsRun(ss, ops) && ss[|ops|].queue != [] && !ss[|ops|].timer
  {
    var a := Entry(0, "project.create");
    var ss, ops := [INITIAL], [];
    ss, ops := Extend(ss, ops, Audit("project.create", true), State([a], [a], true, [], [], []));
    ss, ops := Extend(ss, ops, TimerFires(true), State([a], [], false, [[a]], [], []));
    assert Without([[a]], 0) == [];
    ss, ops := Extend(ss, ops, SendFailed(0), State([a], [a], false, [], [], []));
  }

  predicate Flushes(s: State, op: Op) {
    op.TimerFires? || op.PageHidden? || op.FlushNow? || (op.Audit? && |s.queue| >= 9)
  }

  /** After a flush - by the timer, a hidden page, a call, or the tenth event - nothing waits: with
      a token every event that was not dropped before is on its way or handed over. */
  lemma NothingWaitsAfterFlush(ss: seq<State>, ops: seq<Op>, n: nat)
    requires IsRun(ss, ops) && n < |ops| && Flushes(ss[n], ops[n])
    ensures ss[n + 1].queue == []
    ensures ops[n].token ==>
              && ss[n + 1].dropped == ss[n].dropped && ss[n + 1].handed == ss[n].handed
              && multiset(ss[n + 1].audited) == multiset(Flat(ss[n + 1].flights)) + multiset(ss[n + 1].handed) + multiset(ss[n].dropped)
  {
    assert ss[n + 1] == Step(ss[n], ops[n]);
    EventsAreConserved(ss, ops, n + 1);
    assert multiset(ss[n + 1].queue) == multiset{};
  }

  /** A batch is sent exactly by a flush with a token that finds events, and it is all of them;
      nothing else takes events out of the queue. */
  lemma SendsExactlyWhen(ss: seq<State>, ops: seq<Op>, n: nat)
    requires IsRun(ss, ops) && n < |ops|
    ensures var s, s', op := ss[n], ss[n + 1], ops[n];
            var waiting := s.queue + if op.Audit? then [Entry(|s.audited|, op.action)] else [];
            && (|s'.flights| > |s.flights| <==> Flushes(s, op) && op.token && waiting != [])
            && (Flushes(s, op) && op.token && waiting != [] ==> s'.flights == s.flights + [waiting])
            && (!Flushes(s, op) ==> s'.queue == waiting || (op.SendFailed? && s'.queue == s.flights[op.i] + waiting))
  {
    assert ss[n + 1] == Step(ss[n], ops[n]) && ss[n].queue + [] == ss[n].queue;
  }
}
