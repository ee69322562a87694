/** The loop body of `process_loop` in `services/analyzer_service/app/main.py`, with its loops
    and its error handling, over the bus object of `shared/events.py`. Whatever the NLP
    pipeline and Redis do, one round of it is a path of the worker steps in `Pipelines`, so the
    theorems about runs apply to it. */
module AnalyzerService {
  import opened Events
  import opened Deliveries
  import opened Pipelines

  /** How many messages a read of at most `count` returns. */
  function Available(b: Bus, count: nat): nat
    requires b.cursor <= |b.raw|
  {
    if |b.raw| - b.cursor < count then |b.raw| - b.cursor else count
  }

  class EventBus {
    var raw: seq<Flat>
    var trimmed: set<Id>
    var cursor: nat
    var pending: set<Id>
    var acked: set<Id>
    var analyzed: seq<Logged>
    var dead: seq<Id>
    ghost var raised: set<Id>

    ghost function View(): Bus
      reads this
    {
      Bus(raw, trimmed, cursor, pending, acked, analyzed, dead, raised)
    }

    constructor ()
      ensures View() == EMPTY_BUS
    {
      raw, trimmed, cursor, pending, acked, analyzed, dead, raised := [], {}, 0, {}, {}, [], [], {};
    }

    /** XREADGROUP with ">": the next messages, at most `count`. */
    method Consume(count: nat, fate: Fate) returns (ok: bool, ids: seq<Id>)
      requires cursor <= |raw|
      modifies this`pending, this`cursor
      ensures ok == fate.Works? && raw == old(raw) && |ids| == Available(old(View()), count) && ids == Range(old(cursor), |ids|)
      ensures View() == Local(old(View()), Idle, Event.Consume(0, |ids|, fate)).0
    {
      var n := if |raw| - cursor < count then |raw| - cursor else count;
      ids := Range(cursor, n);
      if TakesEffect(fate) {
        pending := pending + set id | id in ids;
        cursor := cursor + n;
      }
      ok := fate.Works?;
    }

    method PublishBatch(events: seq<Logged>, fate: Fate) returns (ok: bool)
      modifies this`analyzed
      ensures ok == fate.Works? && analyzed == if TakesEffect(fate) then old(analyzed) + events else old(analyzed)
    {
      if TakesEffect(fate) {
        analyzed := analyzed + events;
      }
      ok := fate.Works?;
    }

    method Ack(id: Id, fate: Fate) returns (ok: bool)
      modifies this`pending, this`acked
      ensures ok == fate.Works?
      ensures View() == if TakesEffect(fate) then Pipelines.Ack(old(View()), id) else old(View())
    {
      if TakesEffect(fate) && id in pending {
        pending := pending - {id};
        acked := acked + {id};
      }
      ok := fate.Works?;
    }

    method AppendDead(id: Id, fate: Fate) returns (ok: bool)
      modifies this`dead
      ensures ok == fate.Works? && dead == if TakesEffect(fate) then old(dead) + [id] else old(dead)
    {
      if TakesEffect(fate) {
        dead := dead + [id];
      }
      ok := fate.Works?;
    }
  }

  /** What the environment decides: the outcomes of analysing a message once and again, and the
      fate of the command issued at each step. */
  datatype Environment = Environment(first: Id -> Nlp, second: Id -> Nlp, fates: nat -> Fate)

  /** The step that the code takes next, given where it stands. Publishing no events is not a
      command to Redis. */
  function NextEvent(b: Bus, w: Worker, batchSize: nat, env: Environment, k: nat): Event {
    match w
    case Idle => Event.Consume(0, if b.cursor <= |b.raw| then Available(b, batchSize) else 0, env.fates(k))
    case Analyzing(todo, done, _) =>
      if todo == [] then Event.PublishBatch(0, if done == [] then Works else env.fates(k))
      else AnalyzeNext(0, env.first(todo[0]), env.second(todo[0]))
    case Acking(ids, _) => if ids == [] then Advance(0) else AckNext(0, env.fates(k))
    case Moving(failed) =>
      if failed == [] then Advance(0)
      else if failed[0] !in b.trimmed then MovePublish(0, env.fates(k))
      else if env.fates(k).Works? then Advance(0)
      else MovePublish(0, RaisesBefore)
    case MoveAcking(_) => MoveAck(0, env.fates(k))
    case Rescuing(_) => Rescue(0, env.fates(k))
  }

  /** What one iteration depends on, and the path that it has recorded so far. */
  datatype Round = Round(batchSize: nat, env: Environment, ws: seq<World>, es: seq<Event>)

  /** The path of the only worker takes the prescribed steps and has not come to rest since its
      first one. */
  ghost predicate Prescribed(r: Round) {
    && IsPath(r.ws, r.es)
    && (forall i | 0 <= i < |r.ws| :: |r.ws[i].workers| == 1)
    && (forall i | 0 <= i < |r.es| :: r.es[i] == NextEvent(r.ws[i].bus, r.ws[i].workers[0], r.batchSize, r.env, i))
    && r.ws[0].workers[0] == Idle
    && (forall i | 0 < i < |r.es| :: r.ws[i].workers[0] != Idle)
  }

  /** The path ends in the state of the bus. */
  ghost predicate InStep(bus: EventBus, worker: Worker, r: Round)
    reads bus
  {
    Prescribed(r) && r.ws[|r.es|] == World(bus.View(), [worker])
  }

  /** A later point of the same iteration. */
  ghost predicate Continues(r: Round, r': Round) {
    r'.batchSize == r.batchSize && r'.env == r.env && |r.ws| > 0 && |r'.ws| > 0 && r'.ws[0] == r.ws[0]
  }

  lemma PathSnoc(ws: seq<World>, es: seq<Event>, e: Event)
    requires IsPath(ws, es) && Enabled(ws[|es|], e)
    ensures IsPath(ws + [After(ws[|es|], e)], es + [e])
  {
    var ws', es' := ws + [After(ws[|es|], e)], es + [e];
    forall i | 0 <= i < |es'| ensures Enabled(ws'[i], es'[i]) && ws'[i + 1] == After(ws'[i], es'[i]) {
      if i < |es| { assert ws'[i] == ws[i] && ws'[i + 1] == ws[i + 1]; }
    }
  }

  lemma OneWorkerStays(w: World, e: Event)
    requires Enabled(w, e) && |w.workers| == 1
    ensures |After(w, e).workers| == 1
  {
  }

  lemma Record(r: Round) returns (r': Round)
    requires Prescribed(r) && (|r.es| > 0 ==> r.ws[|r.es|].workers[0] != Idle)
    requires Enabled(r.ws[|r.es|], NextEvent(r.ws[|r.es|].bus, r.ws[|r.es|].workers[0], r.batchSize, r.env, |r.es|))
    ensures Prescribed(r') && Continues(r, r') && |r'.es| == |r.es| + 1
    ensures var w := r.ws[|r.es|];
            r'.ws[|r'.es|] == After(w, NextEvent(w.bus, w.workers[0], r.batchSize, r.env, |r.es|))
  {
    var w := r.ws[|r.es|];
    var e := NextEvent(w.bus, w.workers[0], r.batchSize, r.env, |r.es|);
    var w' := After(w, e);
    r' := Round(r.batchSize, r.env, r.ws + [w'], r.es + [e]);
    PathSnoc(r.ws, r.es, e);
    OneWorkerStays(w, e);
    assert forall i | 0 <= i < |r.ws| :: r'.ws[i] == r.ws[i];
    assert forall i | 0 <= i < |r.es| :: r'.es[i] == r.es[i];
  }

  ghost predicate AtRest(r: Round) { |r.es| > 0 && |r.ws| == |r.es| + 1 && |r.ws[|r.es|].workers| == 1 && r.ws[|r.es|].workers[0] == Idle }

  lemma {:induction false} SamePrefix(r: Round, q: Round, n: nat)
    requires Prescribed(r) && Prescribed(q) && r.batchSize == q.batchSize && r.env == q.env && r.ws[0] == q.ws[0]
    requires n <= |r.es| && n <= |q.es|
    ensures forall i | 0 <= i <= n :: r.ws[i] == q.ws[i]
    ensures forall i | 0 <= i < n :: r.es[i] == q.es[i]
  {
    if n > 0 {
      SamePrefix(r, q, n - 1);
      assert r.ws[n - 1 + 1] == After(r.ws[n - 1], r.es[n - 1]) && q.ws[n - 1 + 1] == After(q.ws[n - 1], q.es[n - 1]);
    }
  }

  /** An iteration that starts and ends at rest is determined by the state in which it starts
      and by its environment. */
  lemma IterationIsDetermined(r: Round, q: Round)
    requires Prescribed(r) && Prescribed(q) && r.batchSize == q.batchSize && r.env == q.env && r.ws[0] == q.ws[0]
    requires AtRest(r) && AtRest(q)
    ensures r == q
  {
    var n := if |r.es| < |q.es| then |r.es| else |q.es|;
    SamePrefix(r, q, n);
  }

  /** An iteration continues a run, so what holds in every run holds after it. */
  lemma IterationExtendsRun(ws: seq<World>, es: seq<Event>, r: Round)
    requires IsRun(ws, es) && Prescribed(r) && r.ws[0] == ws[|es|]
    ensures IsRun(ws + r.ws[1..], es + r.es)
    ensures (ws + r.ws[1..])[|es + r.es|] == r.ws[|r.es|] && Invariant(r.ws[|r.es|])
  {
    var ws', es' := ws + r.ws[1..], es + r.es;
    forall i | 0 <= i < |es'| ensures Enabled(ws'[i], es'[i]) && ws'[i + 1] == After(ws'[i], es'[i]) {
      if i < |es| {
        assert ws'[i] == ws[i] && ws'[i + 1] == ws[i + 1];
      } else {
        assert ws'[i] == r.ws[i - |es|] && ws'[i + 1] == r.ws[i - |es| + 1];
      }
    }
    InvariantHolds(ws', es', |es'|);
  }

  lemma {:induction false} ReadsOnce(r: Round, i: nat)
    requires Prescribed(r) && |r.es| > 0 && i < |r.ws| && i > 0
    ensures r.ws[i].bus.cursor == r.ws[1].bus.cursor && r.ws[i].bus.raw == r.ws[0].bus.raw && r.ws[i].bus.trimmed == r.ws[0].bus.trimmed
  {
    assert r.ws[i - 1 + 1] == After(r.ws[i - 1], r.es[i - 1]);
    if i > 1 { ReadsOnce(r, i - 1); }
  }

  /** While Redis works, an iteration that continues a run reads the next messages, at most a
      batch, and leaves each of them, unless it was trimmed, acked and logged once. */
  lemma IterationLogsBatch(ws: seq<World>, es: seq<Event>, r: Round)
    requires IsRun(ws, es) && Prescribed(r) && r.ws[0] == ws[|es|] && AtRest(r) && forall k :: r.env.fates(k).Works?
    ensures var b, b' := ws[|es|].bus, r.ws[|r.es|].bus;
            && b'.raw == b.raw && b'.cursor == (if b.cursor + r.batchSize <= |b.raw| then b.cursor + r.batchSize else |b.raw|)
            && forall id | b.cursor <= id < b'.cursor && id !in b.trimmed :: id in b'.acked && (id in Ids(b'.analyzed) <==> id !in b'.dead)
  {
    var b, b' := ws[|es|].bus, r.ws[|r.es|].bus;
    InvariantHolds(ws, es, |es|);
    IterationExtendsRun(ws, es, r);
    assert r.ws[0 + 1] == After(r.ws[0], r.es[0]);
    ReadsOnce(r, |r.es|);
    var ws', es' := ws + r.ws[1..], es + r.es;
    forall i | |es| <= i < |es'| ensures Faultless(es'[i]) {
      assert es'[i] == r.es[i - |es|];
    }
    forall id | b.cursor <= id < b'.cursor && id !in b.trimmed
      ensures id in b'.acked && (id in Ids(b'.analyzed) <==> id !in b'.dead)
    {
      AllDeliveredAreLogged(ws', es', |es|, |es'|, id);
    }
  }

  /** One iteration of the `while` loop: from rest to rest by the prescribed steps, which leave
      nothing to choose once the environment is given. */
  method ProcessOnce(bus: EventBus, batchSize: nat, env: Environment) returns (ghost r: Round)
    requires Ledger(bus.View())
    modifies bus
    ensures InStep(bus, Idle, r) && r.batchSize == batchSize && r.env == env
    ensures AtRest(r) && r.ws[0] == World(old(bus.View()), [Idle])
  {
    r := Round(batchSize, env, [World(bus.View(), [Idle])], []);
    var ok, ids := bus.Consume(batchSize, env.fates(0));
    r := Record(r);
    assert r.ws[|r.es|].workers == [if ok && |ids| > 0 then Analyzing(ids, [], []) else Idle];
    if !ok || ids == [] {
      return;
    }
    var k, done, failed;
    k, done, failed, r := AnalyzeAll(bus, ids, env, 1, r);
    if done != [] {
      ok := bus.PublishBatch(done, env.fates(k));
    }
    r := Record(r);
    assert r.ws[|r.es|].workers == [if ok then Acking(Ids(done), failed) else Idle];
    if !ok {
      return;
    }
    ok, k, r := AckAll(bus, Ids(done), failed, env, k + 1, r);
    if !ok {
      return;
    }
    r := MoveAll(bus, failed, env, k, r);
  }

  /** The analysis loop of the batch. */
  method AnalyzeAll(bus: EventBus, ids: seq<Id>, env: Environment, start: nat, ghost r: Round)
    returns (k: nat, done: seq<Logged>, failed: seq<Id>, ghost r': Round)
    requires InStep(bus, Analyzing(ids, [], []), r) && r.env == env && start == |r.es|
    requires forall id | id in ids :: id < |bus.raw|
    ensures InStep(bus, Analyzing([], done, failed), r') && Continues(r, r') && k == |r'.es|
  {
    k, done, failed, r' := start, [], [], r;
    assert ids[0..] == ids;
    for i := 0 to |ids|
      invariant InStep(bus, Analyzing(ids[i..], done, failed), r') && Continues(r, r') && k == |r'.es|
    {
      var id := ids[i];
      var first, second := env.first(id), env.second(id);
      assert id in ids && ids[i..][0] == id && ids[i..][1..] == ids[i + 1..];
      r' := Record(r');
      k := k + 1;
      match Analyze(bus.raw[id], first, second) {
        case Some(event) => done := done + [Logged(id, event)];
        case None => failed := failed + [id];
      }
      assert r'.ws[|r'.es|].workers == [Analyzing(ids[i + 1..], done, failed)];
    }
    assert ids[|ids|..] == [];
  }

  /** The acknowledgement loop; `false` when an ack raised. */
  method AckAll(bus: EventBus, ids: seq<Id>, failed: seq<Id>, env: Environment, start: nat, ghost r: Round)
    returns (ok: bool, k: nat, ghost r': Round)
    requires InStep(bus, Acking(ids, failed), r) && r.env == env && start == |r.es|
    modifies bus`pending, bus`acked
    ensures InStep(bus, if ok then Moving(failed) else Idle, r') && Continues(r, r') && k == |r'.es|
  {
    k, r' := start, r;
    assert ids[0..] == ids;
    for i := 0 to |ids|
      invariant InStep(bus, Acking(ids[i..], failed), r') && Continues(r, r') && k == |r'.es|
    {
      assert ids[i..][0] == ids[i] && ids[i..][1..] == ids[i + 1..];
      ok := bus.Ack(ids[i], env.fates(k));
      r' := Record(r');
      k := k + 1;
      assert r'.ws[|r'.es|].workers == [if ok then Acking(ids[i + 1..], failed) else Idle];
      if !ok {
        return;
      }
    }
    r' := Record(r');
    k := k + 1;
    assert r'.ws[|r'.es|].workers == [Moving(failed)];
    ok := true;
  }

  /** The dead-letter loop, with the last-resort ack of a message whose move raised. */
  method MoveAll(bus: EventBus, failed: seq<Id>, env: Environment, start: nat, ghost r: Round) returns (ghost r': Round)
    requires InStep(bus, Moving(failed), r) && r.env == env && start == |r.es|
    modifies bus`pending, bus`acked, bus`dead, bus`raised
    ensures InStep(bus, Idle, r') && Continues(r, r') && |r'.es| > 0
  {
    r' := r;
    var k := start;
    assert failed[0..] == failed;
    for i := 0 to |failed|
      invariant InStep(bus, Moving(failed[i..]), r') && Continues(r, r') && k == |r'.es|
    {
      var ok;
      ok, k, r' := MoveOne(bus, failed[i..], env, k, r');
      if !ok {
        return;
      }
      assert failed[i..][1..] == failed[i + 1..];
    }
    assert failed[|failed|..] == [];
    r' := Record(r');
    assert r'.ws[|r'.es|].workers == [Idle];
  }

  /** `move_to_dlq` for the first message; `false` when it raised. */
  method MoveToDlq(bus: EventBus, failed: seq<Id>, env: Environment, start: nat, ghost r: Round)
    returns (ok: bool, k: nat, ghost r': Round)
    requires failed != [] && InStep(bus, Moving(failed), r) && r.env == env && start == |r.es|
    modifies bus`pending, bus`acked, bus`dead, bus`raised
    ensures InStep(bus, if ok then Moving(failed[1..]) else Rescuing(failed), r') && Continues(r, r')
    ensures k == |r'.es| > start
  {
    var id := failed[0];
    if id in bus.trimmed {
      if !env.fates(start).Works? {
        bus.raised := bus.raised + {id};
        r' := Record(r);
        assert r'.ws[|r'.es|].workers == [Rescuing(failed)];
        return false, start + 1, r';
      }
      r' := Record(r);
      assert r'.ws[|r'.es|].workers == [Moving(failed[1..])];
      return true, start + 1, r';
    }
    ok := bus.AppendDead(id, env.fates(start));
    r' := Record(r);
    k := start + 1;
    if ok {
      assert r'.ws[|r'.es|].workers == [MoveAcking(failed)];
      ok, r' := AckMoved(bus, failed, env, k, r');
      k := k + 1;
    } else {
      bus.raised := bus.raised + {id};
      assert r'.ws[|r'.es|].workers == [Rescuing(failed)];
    }
  }

  method AckMoved(bus: EventBus, failed: seq<Id>, env: Environment, k: nat, ghost r: Round) returns (ok: bool, ghost r': Round)
    requires failed != [] && InStep(bus, MoveAcking(failed), r) && r.env == env && k == |r.es|
    modifies bus`pending, bus`acked, bus`raised
    ensures InStep(bus, if ok then Moving(failed[1..]) else Rescuing(failed), r') && Continues(r, r') && |r'.es| == k + 1
  {
    ok := bus.Ack(failed[0], env.fates(k));
    r' := Record(r);
    if !ok {
      bus.raised := bus.raised + {failed[0]};
    }
    assert r'.ws[|r'.es|].workers == [if ok then Moving(failed[1..]) else Rescuing(failed)];
  }

  /** The move of the first message, and the last-resort ack when the move raised. */
  method MoveOne(bus: EventBus, failed: seq<Id>, env: Environment, start: nat, ghost r: Round)
    returns (ok: bool, k: nat, ghost r': Round)
    requires failed != [] && InStep(bus, Moving(failed), r) && r.env == env && start == |r.es|
    modifies bus`pending, bus`acked, bus`dead, bus`raised
    ensures InStep(bus, if ok then Moving(failed[1..]) else Idle, r') && Continues(r, r') && k == |r'.es| > 0
  {
    ok, k, r' := MoveToDlq(bus, failed, env, start, r);
    if !ok {
      ok := bus.Ack(failed[0], env.fates(k));
      r' := Record(r');
      k := k + 1;
      assert r'.ws[|r'.es|].workers == [if ok then Moving(failed[1..]) else Idle];
    }
  }
}
