/** The analyzer service (`services/analyzer_service/app/main.py`) on the Redis streams bus
    (`shared/events.py`): any number of workers of one consumer group, each interrupted by NLP
    failures, Redis errors (before or after a command took effect) or a crash at any await. */
module Pipelines {
  import opened Wrappers
  import opened Events
  import opened Deliveries

  datatype Logged = Logged(id: Id, event: AnalyzedMention)

  /** The streams and the consumer group. `raw` and the two output streams are whole histories;
      `trimmed` are the raw messages that MAXLEN has removed; `raised` are the messages whose
      move to the dead-letter queue raised. */
  datatype Bus = Bus(raw: seq<Flat>, trimmed: set<Id>, cursor: nat, pending: set<Id>, acked: set<Id>,
                     analyzed: seq<Logged>, dead: seq<Id>, raised: set<Id>)

  /** Where a worker is in its loop body. */
  datatype Worker =
    | Idle
    | Analyzing(todo: seq<Id>, done: seq<Logged>, failed: seq<Id>)
    | Acking(ids: seq<Id>, failed: seq<Id>)
    | Moving(failed: seq<Id>)
    | MoveAcking(failed: seq<Id>)
    | Rescuing(failed: seq<Id>)

  datatype World = World(bus: Bus, workers: seq<Worker>)

  /** What one attempt of the NLP pipeline does. */
  datatype Nlp = Result(r: NlpResult) | TimedOut | Transient | Permanent

  /** One analysis with at most one retry: only transient errors are retried, and an
      unreadable number in the message is a permanent error. */
  function Analyze(data: Flat, first: Nlp, second: Nlp): Option<AnalyzedMention> {
    match first
    case Result(r) => AnalyzeMention(data, r)
    case TimedOut => None
    case Permanent => None
    case Transient => if second.Result? then AnalyzeMention(data, second.r) else None
  }

  datatype Event =
    | Produce(data: Flat)
    | Trim(id: Id)
    | Consume(w: nat, n: nat, fate: Fate)
    | AnalyzeNext(w: nat, first: Nlp, second: Nlp)
    | PublishBatch(w: nat, fate: Fate)
    | AckNext(w: nat, fate: Fate)
    | Advance(w: nat)
    | MovePublish(w: nat, fate: Fate)
    | MoveAck(w: nat, fate: Fate)
    | Rescue(w: nat, fate: Fate)
    | Crash(w: nat)

  function Ack(b: Bus, id: Id): Bus {
    if id in b.pending then b.(pending := b.pending - {id}, acked := b.acked + {id}) else b
  }

  predicate Enabled(w: World, e: Event) {
    match e
    case Produce(_) => true
    case Trim(id) => id < |w.bus.raw|
    case Consume(i, n, _) => i < |w.workers| && w.workers[i].Idle? && w.bus.cursor + n <= |w.bus.raw|
    case AnalyzeNext(i, _, _) => i < |w.workers| && w.workers[i].Analyzing? && w.workers[i].todo != [] && w.workers[i].todo[0] < |w.bus.raw|
    case PublishBatch(i, fate) =>
      i < |w.workers| && w.workers[i].Analyzing? && w.workers[i].todo == [] && (w.workers[i].done == [] ==> fate.Works?)
    case AckNext(i, _) => i < |w.workers| && w.workers[i].Acking? && w.workers[i].ids != []
    case Advance(i) =>
      i < |w.workers| &&
      (match w.workers[i]
       case Acking(ids, _) => ids == []
       case Moving(failed) => failed == [] || failed[0] in w.bus.trimmed
       case _ => false)
    case MovePublish(i, fate) =>
      // looking up a trimmed message raises or finds nothing; there is nothing to publish
      && i < |w.workers| && w.workers[i].Moving? && w.workers[i].failed != []
      && (w.workers[i].failed[0] in w.bus.trimmed ==> fate == RaisesBefore)
    case MoveAck(i, _) => i < |w.workers| && w.workers[i].MoveAcking? && w.workers[i].failed != []
    case Rescue(i, _) => i < |w.workers| && w.workers[i].Rescuing? && w.workers[i].failed != []
    case Crash(i) => i < |w.workers|
  }

  /** A step in which nothing goes wrong with Redis or the worker. */
  predicate Faultless(e: Event) {
    match e
    case Produce(_) => true
    case Trim(_) => true
    case AnalyzeNext(_, _, _) => true
    case Advance(_) => true
    case Crash(_) => false
    case _ => e.fate.Works?
  }

  function Ids(ls: seq<Logged>): seq<Id> { seq(|ls|, i requires 0 <= i < |ls| => ls[i].id) }

  /** One step of worker `i`: the bus and the worker afterwards. */
  function Local(b: Bus, w: Worker, e: Event): (Bus, Worker)
    requires e.Consume? ==> b.cursor + e.n <= |b.raw|
    requires e.AnalyzeNext? ==> w.Analyzing? && w.todo != [] && w.todo[0] < |b.raw|
    requires e.PublishBatch? ==> w.Analyzing?
    requires e.AckNext? ==> w.Acking? && w.ids != []
    requires e.Advance? ==> (w.Acking? && w.ids == []) || w.Moving?
    requires e.MovePublish? ==> w.Moving? && w.failed != []
    requires e.MoveAck? ==> w.MoveAcking? && w.failed != []
    requires e.Rescue? ==> w.Rescuing? && w.failed != []
  {
    match e
    case Produce(_) => (b, w)
    case Trim(_) => (b, w)
    case Crash(_) => (b, Idle)
    case Consume(_, n, fate) =>
      var ids := Range(b.cursor, n);
      (if TakesEffect(fate) then b.(cursor := b.cursor + n, pending := b.pending + set id | id in ids) else b,
       if fate.Works? && n > 0 then Analyzing(ids, [], []) else Idle)
    case AnalyzeNext(_, first, second) =>
      var id := w.todo[0];
      (b,
       match Analyze(b.raw[id], first, second)
       case Some(event) => Analyzing(w.todo[1..], w.done + [Logged(id, event)], w.failed)
       case None => Analyzing(w.todo[1..], w.done, w.failed + [id]))
    case PublishBatch(_, fate) =>
      (if TakesEffect(fate) then b.(analyzed := b.analyzed + w.done) else b,
       if fate.Works? then Acking(Ids(w.done), w.failed) else Idle)
    case AckNext(_, fate) =>
      (if TakesEffect(fate) then Ack(b, w.ids[0]) else b,
       if fate.Works? then Acking(w.ids[1..], w.failed) else Idle)
    case Advance(_) =>
      (b, if w.Acking? then Moving(w.failed) else if w.failed == [] then Idle else Moving(w.failed[1..]))
    case MovePublish(_, fate) =>
      var b' := if TakesEffect(fate) then b.(dead := b.dead + [w.failed[0]]) else b;
      if fate.Works? then (b', MoveAcking(w.failed)) else (b'.(raised := b.raised + {w.failed[0]}), Rescuing(w.failed))
    case MoveAck(_, fate) =>
      var b' := if TakesEffect(fate) then Ack(b, w.failed[0]) else b;
      if fate.Works? then (b', Moving(w.failed[1..])) else (b'.(raised := b.raised + {w.failed[0]}), Rescuing(w.failed))
    case Rescue(_, fate) =>
      (if TakesEffect(fate) then Ack(b, w.failed[0]) else b,
       if fate.Works? then Moving(w.failed[1..]) else Idle)
  }

  function After(w: World, e: Event): World
    requires Enabled(w, e)
  {
    match e
    case Produce(data) => w.(bus := w.bus.(raw := w.bus.raw + [data]))
    case Trim(id) => w.(bus := w.bus.(trimmed := w.bus.trimmed + {id}))
    case _ =>
      var (b, worker) := Local(w.bus, w.workers[e.w], e);
      World(b, w.workers[e.w := worker])
  }

  const EMPTY_BUS := Bus([], {}, 0, {}, {}, [], [], {})

  ghost predicate IsPath(ws: seq<World>, es: seq<Event>) {
    |ws| == |es| + 1 &&
    forall i | 0 <= i < |es| :: Enabled(ws[i], es[i]) && ws[i + 1] == After(ws[i], es[i])
  }

  ghost predicate IsRun(ws: seq<World>, es: seq<Event>) {
    IsPath(ws, es) && ws[0].bus == EMPTY_BUS && forall i | 0 <= i < |ws[0].workers| :: ws[0].workers[i] == Idle
  }

  // ---------------------------------------------------------------------------------------
  // Each delivered message is in at most one place

  function Tail(s: seq<Id>): seq<Id> { if s == [] then [] else s[1..] }

  /** How often a worker holds a message that it has not yet logged anywhere. */
  function Work(w: Worker, id: Id): nat {
    match w
    case Idle => 0
    case Analyzing(todo, done, failed) => Occurrences(todo, id) + Occurrences(Ids(done), id) + Occurrences(failed, id)
    case Acking(_, failed) => Occurrences(failed, id)
    case Moving(failed) => Occurrences(failed, id)
    case MoveAcking(failed) => Occurrences(Tail(failed), id)
    case Rescuing(failed) => Occurrences(Tail(failed), id)
  }

  function AllWork(workers: seq<Worker>, id: Id): nat {
    if workers == [] then 0 else AllWork(workers[..|workers| - 1], id) + Work(workers[|workers| - 1], id)
  }

  lemma {:induction false} AllWorkUpdate(workers: seq<Worker>, i: nat, w: Worker, id: Id)
    requires i < |workers|
    ensures AllWork(workers[i := w], id) + Work(workers[i], id) == AllWork(workers, id) + Work(w, id)
  {
    var n := |workers| - 1;
    var front := workers[..n];
    if i == n {
      assert workers[i := w][..n] == front;
    } else {
      AllWorkUpdate(front, i, w, id);
      assert workers[i := w][..n] == front[i := w];
    }
  }

  /** How often a delivered message is somewhere: worked on, in the analysed log or in the
      dead-letter log. */
  function Places(b: Bus, work: nat, id: Id): nat {
    work + Occurrences(Ids(b.analyzed), id) + Occurrences(b.dead, id)
  }

  ghost predicate AtMostOncePlaced(w: World) {
    forall id: Id :: Places(w.bus, AllWork(w.workers, id), id) <= if id < w.bus.cursor then 1 else 0
  }

  /** Delivered messages are pending or acked, never both. */
  ghost predicate Ledger(b: Bus) {
    b.cursor <= |b.raw| && b.pending !! b.acked && forall id: Id :: id in b.pending || id in b.acked <==> id < b.cursor
  }

  ghost predicate Accounted(b: Bus, id: Id) {
    id in Ids(b.analyzed) || id in b.dead || id in b.raised
  }

  /** What a worker is about to ack has been logged, or its move raised. */
  ghost predicate Ready(b: Bus, w: Worker) {
    match w
    case Acking(ids, _) => forall id | id in ids :: id in Ids(b.analyzed)
    case MoveAcking(failed) => failed != [] ==> failed[0] in b.dead
    case Rescuing(failed) => failed != [] ==> failed[0] in b.raised
    case _ => true
  }

  /** An event is the analysis of the message it is logged for. */
  ghost predicate Genuine(b: Bus, l: Logged) {
    l.id < |b.raw| && exists nlp :: AnalyzeMention(b.raw[l.id], nlp) == Some(l.event)
  }

  ghost predicate AllGenuine(b: Bus, w: Worker) {
    w.Analyzing? ==> forall l | l in w.done :: Genuine(b, l)
  }

  ghost predicate Invariant(w: World) {
    && AtMostOncePlaced(w)
    && Ledger(w.bus)
    && (forall id | id in w.bus.acked :: Accounted(w.bus, id))
    && (forall i | 0 <= i < |w.workers| :: Ready(w.bus, w.workers[i]) && AllGenuine(w.bus, w.workers[i]))
    && (forall l | l in w.bus.analyzed :: Genuine(w.bus, l))
  }

  // ---------------------------------------------------------------------------------------
  // Every step keeps the invariant

  lemma IdsConcat(a: seq<Logged>, b: seq<Logged>)
    ensures Ids(a + b) == Ids(a) + Ids(b)
  {
  }

  predicate LocallyEnabled(b: Bus, w: Worker, e: Event) {
    && (e.Consume? ==> w.Idle? && b.cursor + e.n <= |b.raw|)
    && (e.AnalyzeNext? ==> w.Analyzing? && w.todo != [] && w.todo[0] < |b.raw|)
    && (e.PublishBatch? ==> w.Analyzing? && w.todo == [])
    && (e.AckNext? ==> w.Acking? && w.ids != [])
    && (e.Advance? ==> (w.Acking? && w.ids == []) || w.Moving?)
    && (e.MovePublish? ==> w.Moving? && w.failed != [])
    && (e.MoveAck? ==> w.MoveAcking? && w.failed != [])
    && (e.Rescue? ==> w.Rescuing? && w.failed != [])
  }

  /** The move of a trimmed message, which `move_to_dlq` gives up silently. */
  predicate Skips(w: Worker, e: Event) { e.Advance? && w.Moving? && w.failed != [] }

  /** How often a step delivers a message. */
  function Delivers(b: Bus, e: Event, id: Id): nat {
    if e.Consume? && TakesEffect(e.fate) then Occurrences(Range(b.cursor, e.n), id) else 0
  }

  /** How often a step takes a message out of the worker's hands without logging it: a read or a
      publication that raised, the end of a batch by an error or a crash, and a move that wrote
      nothing. */
  function Forgets(b: Bus, w: Worker, e: Event, id: Id): nat
    requires LocallyEnabled(b, w, e)
  {
    match e
    case Consume(_, n, fate) => if fate == RaisesAfter then Occurrences(Range(b.cursor, n), id) else 0
    case PublishBatch(_, fate) =>
      if fate.Works? then 0
      else Occurrences(w.failed, id) + if fate == RaisesBefore then Occurrences(Ids(w.done), id) else 0
    case AckNext(_, fate) => if fate.Works? then 0 else Occurrences(w.failed, id)
    case Advance(_) => if Skips(w, e) && w.failed[0] == id then 1 else 0
    case MovePublish(_, fate) => if fate == RaisesBefore && w.failed[0] == id then 1 else 0
    case Rescue(_, fate) => if fate.Works? then 0 else Occurrences(Tail(w.failed), id)
    case Crash(_) => Work(w, id)
    case _ => 0
  }

  /** A step moves a message between places or forgets it, but never copies it; only delivery
      adds new ones. */
  lemma StepNeverCopies(b: Bus, w: Worker, e: Event, id: Id)
    requires LocallyEnabled(b, w, e) && !e.Produce? && !e.Trim?
    ensures var (b', w') := Local(b, w, e);
            Places(b', Work(w', id), id) + Forgets(b, w, e, id) == Places(b, Work(w, id), id) + Delivers(b, e, id)
  {
    if e.Consume? {
      DeliveryAdds(b, w, e, id);
    } else if e.AnalyzeNext? {
      AnalysisKeepsWork(b, w, e, id);
    } else if e.PublishBatch? {
      PublishingMoves(b, w, e, id);
    } else if e.MovePublish? {
      DeadLetteringMoves(b, w, e, id);
    } else {
      OtherStepsForget(b, w, e, id);
    }
  }

  lemma DeliveryAdds(b: Bus, w: Worker, e: Event, id: Id)
    requires LocallyEnabled(b, w, e) && e.Consume?
    ensures var (b', w') := Local(b, w, e);
            b'.analyzed == b.analyzed && b'.dead == b.dead && Work(w', id) + Forgets(b, w, e, id) == Delivers(b, e, id)
  {
    assert Occurrences([], id) == 0 && Ids([]) == [];
  }

  lemma DeadLetteringMoves(b: Bus, w: Worker, e: Event, id: Id)
    requires LocallyEnabled(b, w, e) && e.MovePublish?
    ensures var (b', w') := Local(b, w, e);
            b'.analyzed == b.analyzed && Work(w', id) + Occurrences(b'.dead, id) + Forgets(b, w, e, id) == Work(w, id) + Occurrences(b.dead, id)
  {
    CountHead(w.failed, id);
    CountSnoc(b.dead, w.failed[0], id);
  }

  lemma OtherStepsForget(b: Bus, w: Worker, e: Event, id: Id)
    requires LocallyEnabled(b, w, e) && !e.Produce? && !e.Trim?
    requires !e.Consume? && !e.AnalyzeNext? && !e.PublishBatch? && !e.MovePublish?
    ensures var (b', w') := Local(b, w, e);
            b'.analyzed == b.analyzed && b'.dead == b.dead && Work(w', id) + Forgets(b, w, e, id) == Work(w, id)
  {
    if e.Advance? && w.Moving? && w.failed != [] { CountHead(w.failed, id); }
  }

  lemma AnalysisKeepsWork(b: Bus, w: Worker, e: Event, id: Id)
    requires LocallyEnabled(b, w, e) && e.AnalyzeNext?
    ensures Local(b, w, e).0 == b && Work(Local(b, w, e).1, id) == Work(w, id)
  {
    CountHead(w.todo, id);
    CountSnoc(w.failed, w.todo[0], id);
    var analysis := Analyze(b.raw[w.todo[0]], e.first, e.second);
    if analysis.Some? {
      var l := Logged(w.todo[0], analysis.value);
      IdsConcat(w.done, [l]);
      assert Ids([l]) == [w.todo[0]];
      CountSnoc(Ids(w.done), w.todo[0], id);
    }
  }

  lemma PublishingMoves(b: Bus, w: Worker, e: Event, id: Id)
    requires LocallyEnabled(b, w, e) && e.PublishBatch?
    ensures var (b', w') := Local(b, w, e);
            b'.dead == b.dead
            && Work(w', id) + Occurrences(Ids(b'.analyzed), id) + Forgets(b, w, e, id) == Work(w, id) + Occurrences(Ids(b.analyzed), id)
  {
    IdsConcat(b.analyzed, w.done);
    CountConcat(Ids(b.analyzed), Ids(w.done), id);
  }

  /** How often an event of a run forgets a message. */
  function Forgotten(w: World, e: Event, id: Id): nat {
    if e.Produce? || e.Trim? || !Enabled(w, e) then 0 else Forgets(w.bus, w.workers[e.w], e, id)
  }

  lemma StepPlaces(w: World, e: Event, id: Id)
    requires Enabled(w, e)
    ensures var w' := After(w, e);
            Places(w'.bus, AllWork(w'.workers, id), id) + Forgotten(w, e, id) + (if id < w.bus.cursor then 1 else 0) ==
            Places(w.bus, AllWork(w.workers, id), id) + (if id < w'.bus.cursor then 1 else 0)
  {
    if !e.Produce? && !e.Trim? {
      AllWorkUpdate(w.workers, e.w, After(w, e).workers[e.w], id);
      StepNeverCopies(w.bus, w.workers[e.w], e, id);
      if e.Consume? { RangeOnce(w.bus.cursor, e.n, id); }
    }
  }

  lemma StepKeepsPlaces(w: World, e: Event)
    requires Enabled(w, e) && Invariant(w)
    ensures AtMostOncePlaced(After(w, e))
  {
    var w' := After(w, e);
    forall id: Id ensures Places(w'.bus, AllWork(w'.workers, id), id) <= if id < w'.bus.cursor then 1 else 0 {
      assert Places(w.bus, AllWork(w.workers, id), id) <= if id < w.bus.cursor then 1 else 0;
      StepPlaces(w, e, id);
    }
  }

  lemma StepKeepsLedger(b: Bus, w: Worker, e: Event)
    requires LocallyEnabled(b, w, e) && Ledger(b)
    ensures Ledger(Local(b, w, e).0)
  {
    if e.Consume? { DeliveryKeepsLedger(b, e.n); }
  }

  lemma DeliveryKeepsLedger(b: Bus, n: nat)
    requires Ledger(b) && b.cursor + n <= |b.raw|
    ensures Ledger(b.(cursor := b.cursor + n, pending := b.pending + set id | id in Range(b.cursor, n)))
  {
    forall id: Id ensures id in Range(b.cursor, n) <==> b.cursor <= id < b.cursor + n {
      RangeOnce(b.cursor, n, id);
    }
  }

  /** Logs, the record of raised moves and the raw stream only grow. */
  ghost predicate Grows(b: Bus, b': Bus) {
    b.raw <= b'.raw && b.analyzed <= b'.analyzed && b.dead <= b'.dead && b.raised <= b'.raised
  }

  lemma GrowthKeeps(b: Bus, b': Bus)
    requires Grows(b, b')
    ensures forall id | Accounted(b, id) :: Accounted(b', id)
    ensures forall w | Ready(b, w) :: Ready(b', w)
    ensures forall l | Genuine(b, l) :: Genuine(b', l)
  {
    IdsConcat(b.analyzed, b'.analyzed[|b.analyzed|..]);
    assert b'.analyzed == b.analyzed + b'.analyzed[|b.analyzed|..];
    forall l | Genuine(b, l) ensures Genuine(b', l) {
      assert b'.raw[l.id] == b.raw[l.id];
    }
  }

  lemma StepGrows(b: Bus, w: Worker, e: Event)
    requires LocallyEnabled(b, w, e)
    ensures Grows(b, Local(b, w, e).0)
  {
  }

  /** An id is acked only when it has been accounted for. */
  lemma StepAcksAccounted(b: Bus, w: Worker, e: Event)
    requires LocallyEnabled(b, w, e) && Ready(b, w)
    ensures forall id | id in Local(b, w, e).0.acked && id !in b.acked :: Accounted(b, id)
  {
  }

  lemma StepKeepsReady(b: Bus, w: Worker, e: Event)
    requires LocallyEnabled(b, w, e) && Ready(b, w)
    ensures Ready(Local(b, w, e).0, Local(b, w, e).1)
  {
    if e.PublishBatch? {
      IdsConcat(b.analyzed, w.done);
    } else if e.AckNext? {
      assert forall id | id in w.ids[1..] :: id in w.ids;
    }
  }

  lemma StepKeepsGenuine(b: Bus, w: Worker, e: Event)
    requires LocallyEnabled(b, w, e) && AllGenuine(b, w) && forall l | l in b.analyzed :: Genuine(b, l)
    ensures var (b', w') := Local(b, w, e);
            AllGenuine(b', w') && forall l | l in b'.analyzed :: Genuine(b', l)
  {
    var (b', w') := Local(b, w, e);
    StepGrows(b, w, e);
    GrowthKeeps(b, b');
    if e.AnalyzeNext? && w'.done != w.done {
      var l := w'.done[|w.done|];
      var nlp := if e.first.Result? then e.first.r else e.second.r;
      assert AnalyzeMention(b.raw[l.id], nlp) == Some(l.event);
      assert forall k | k in w'.done :: k in w.done || k == l;
    } else if e.PublishBatch? {
      assert forall k | k in b'.analyzed :: k in b.analyzed || k in w.done;
    }
  }

  lemma StepKeepsInvariant(w: World, e: Event)
    requires Enabled(w, e) && Invariant(w)
    ensures Invariant(After(w, e))
  {
    var w' := After(w, e);
    StepKeepsPlaces(w, e);
    if e.Produce? || e.Trim? {
      GrowthKeeps(w.bus, w'.bus);
    } else {
      var b, worker := w.bus, w.workers[e.w];
      StepKeepsLedger(b, worker, e);
      StepGrows(b, worker, e);
      GrowthKeeps(b, w'.bus);
      StepAcksAccounted(b, worker, e);
      StepKeepsReady(b, worker, e);
      StepKeepsGenuine(b, worker, e);
    }
  }

  lemma {:induction false} InvariantHolds(ws: seq<World>, es: seq<Event>, n: nat)
    requires IsRun(ws, es) && n < |ws|
    ensures Invariant(ws[n])
  {
    if n == 0 {
      forall id: Id ensures AllWork(ws[0].workers, id) == 0 { IdleWork(ws[0].workers, id); }
      assert Ids([]) == [];
    } else {
      InvariantHolds(ws, es, n - 1);
      assert ws[n - 1 + 1] == After(ws[n - 1], es[n - 1]);
      StepKeepsInvariant(ws[n - 1], es[n - 1]);
    }
  }

  lemma {:induction false} IdleWork(workers: seq<Worker>, id: Id)
    requires forall i | 0 <= i < |workers| :: workers[i] == Idle
    ensures AllWork(workers, id) == 0
  {
    if workers != [] { IdleWork(workers[..|workers| - 1], id); }
  }

  // ---------------------------------------------------------------------------------------
  // What holds in every run

  /** A message is acked only when its analysed event or its dead-letter entry is in the log, or
      its move to the dead-letter queue raised. */
  lemma AckedIsAccountedFor(ws: seq<World>, es: seq<Event>, n: nat, id: Id)
    requires IsRun(ws, es) && n < |ws| && id in ws[n].bus.acked
    ensures Accounted(ws[n].bus, id)
  {
    InvariantHolds(ws, es, n);
  }

  /** Every delivered message that is not acked is still pending, and the other way round. */
  lemma PendingIsDeliveredUnacked(ws: seq<World>, es: seq<Event>, n: nat, id: Id)
    requires IsRun(ws, es) && n < |ws|
    ensures id in ws[n].bus.pending <==> id < ws[n].bus.cursor && id !in ws[n].bus.acked
  {
    InvariantHolds(ws, es, n);
  }

  /** A raw message yields at most one analysed event or one dead-letter entry, never both,
      whatever fails and however many workers share the group. */
  lemma LoggedAtMostOnce(ws: seq<World>, es: seq<Event>, n: nat)
    requires IsRun(ws, es) && n < |ws|
    ensures var b := ws[n].bus;
            Distinct(Ids(b.analyzed)) && Distinct(b.dead) && forall id | id in Ids(b.analyzed) :: id !in b.dead
  {
    InvariantHolds(ws, es, n);
    var b := ws[n].bus;
    forall id: Id ensures Occurrences(Ids(b.analyzed), id) + Occurrences(b.dead, id) <= 1 {
      assert Places(b, AllWork(ws[n].workers, id), id) <= 1;
    }
    AtMostOneIsDistinct(Ids(b.analyzed));
    AtMostOneIsDistinct(b.dead);
    forall id | id in Ids(b.analyzed) ensures id !in b.dead {
      assert Occurrences(Ids(b.analyzed), id) >= 1;
    }
  }

  /** An analysed event carries the mention that the collector published under its id, every
      field unchanged. */
  lemma AnalyzedCarriesMention(ws: seq<World>, es: seq<Event>, n: nat, l: Logged, m: Mention, eventId: string, version: string)
    requires IsRun(ws, es) && n < |ws| && l in ws[n].bus.analyzed
    requires l.id < |ws[n].bus.raw| ==> ws[n].bus.raw[l.id] == Flatten(RawMention(Cut(m), eventId, version))
    ensures l.id < ws[n].bus.cursor && l.event.mention == Cut(m)
  {
    InvariantHolds(ws, es, n);
    var b := ws[n].bus;
    assert Genuine(b, l);
    var nlp :| AnalyzeMention(b.raw[l.id], nlp) == Some(l.event);
    AnalysisCopiesMention(m, eventId, version, nlp);
    var i :| 0 <= i < |b.analyzed| && b.analyzed[i] == l;
    assert Ids(b.analyzed)[i] == l.id;
    assert Occurrences(Ids(b.analyzed), l.id) >= 1;
    assert Places(b, AllWork(ws[n].workers, l.id), l.id) >= 1;
  }

  // ---------------------------------------------------------------------------------------
  // What has become of a message

  /** How often the first `n` steps have forgotten a message. */
  ghost function ForgottenBy(ws: seq<World>, es: seq<Event>, n: nat, id: Id): nat
    requires n <= |es| < |ws|
  {
    if n == 0 then 0 else ForgottenBy(ws, es, n - 1, id) + Forgotten(ws[n - 1], es[n - 1], id)
  }

  /** In every run a delivered message is in one place - in a worker's hands, in the analysed log
      or in the dead-letter log - or it has been forgotten once. */
  lemma {:induction false} EachIsSomewhereOrForgotten(ws: seq<World>, es: seq<Event>, n: nat, id: Id)
    requires IsRun(ws, es) && n < |ws|
    ensures Places(ws[n].bus, AllWork(ws[n].workers, id), id) + ForgottenBy(ws, es, n, id) == if id < ws[n].bus.cursor then 1 else 0
  {
    if n == 0 {
      IdleWork(ws[0].workers, id);
      assert Ids([]) == [];
    } else {
      EachIsSomewhereOrForgotten(ws, es, n - 1, id);
      assert ws[n - 1 + 1] == After(ws[n - 1], es[n - 1]);
      StepPlaces(ws[n - 1], es[n - 1], id);
    }
  }

  lemma {:induction false} NeverForgotten(ws: seq<World>, es: seq<Event>, n: nat, id: Id)
    requires n <= |es| < |ws|
    ensures ForgottenBy(ws, es, n, id) == 0 <==> forall k | 0 <= k < n :: Forgotten(ws[k], es[k], id) == 0
  {
    if n > 0 { NeverForgotten(ws, es, n - 1, id); }
  }

  /** When all workers are idle, a delivered message is in neither log exactly if some step of the
      run has forgotten it. */
  lemma UnloggedExactlyWhenForgotten(ws: seq<World>, es: seq<Event>, n: nat, id: Id)
    requires IsRun(ws, es) && n < |ws| && id < ws[n].bus.cursor
    requires forall i | 0 <= i < |ws[n].workers| :: ws[n].workers[i] == Idle
    ensures id !in Ids(ws[n].bus.analyzed) && id !in ws[n].bus.dead <==>
            exists k :: 0 <= k < n && Forgotten(ws[k], es[k], id) > 0
  {
    EachIsSomewhereOrForgotten(ws, es, n, id);
    IdleWork(ws[n].workers, id);
    NeverForgotten(ws, es, n, id);
    var b := ws[n].bus;
    assert id in Ids(b.analyzed) <==> Occurrences(Ids(b.analyzed), id) > 0;
    assert id in b.dead <==> Occurrences(b.dead, id) > 0;
  }

  // ---------------------------------------------------------------------------------------
  // Without faults nothing is left behind

  ghost predicate Holds(w: Worker, id: Id) {
    match w
    case Idle => false
    case Analyzing(todo, done, failed) => id in todo || id in Ids(done) || id in failed
    case Acking(ids, failed) => id in ids || id in failed
    case Moving(failed) => id in failed
    case MoveAcking(failed) => id in failed
    case Rescuing(failed) => id in failed
  }

  /** Nothing goes wrong but moves to the dead-letter queue, which have a last resort. */
  predicate OnlyMovesFail(e: Event) { Faultless(e) || e.MovePublish? || e.MoveAck? }

  /** A pending message that was not trimmed is in a worker's hands. */
  ghost predicate HeldIfPending(w: World, id: Id) {
    id in w.bus.pending && id !in w.bus.trimmed ==> exists i :: 0 <= i < |w.workers| && Holds(w.workers[i], id)
  }

  lemma StepKeepsHeld(b: Bus, w: Worker, e: Event, id: Id)
    requires LocallyEnabled(b, w, e) && OnlyMovesFail(e) && !e.Produce? && !e.Trim? && !(Skips(w, e) && w.failed[0] == id)
    requires id in Local(b, w, e).0.pending && (Holds(w, id) || id !in b.pending)
    ensures Holds(Local(b, w, e).1, id)
  {
    if e.Consume? {
      assert Holds(w, id) ==> false;
    } else if e.AnalyzeNext? {
      assert w.todo == [w.todo[0]] + w.todo[1..];
      var w' := Local(b, w, e).1;
      if w'.done != w.done {
        IdsConcat(w.done, [w'.done[|w.done|]]);
        assert w'.done == w.done + [w'.done[|w.done|]];
        assert Ids([w'.done[|w.done|]]) == [w.todo[0]];
      }
    } else if e.AckNext? {
      assert w.ids == [w.ids[0]] + w.ids[1..];
    } else if e.MoveAck? || e.Rescue? || Skips(w, e) {
      assert w.failed == [w.failed[0]] + w.failed[1..];
    }
  }

  lemma StepKeepsHeldIfPending(w: World, e: Event, id: Id)
    requires Enabled(w, e) && OnlyMovesFail(e) && HeldIfPending(w, id)
    ensures HeldIfPending(After(w, e), id)
  {
    var w' := After(w, e);
    if !e.Produce? && !e.Trim? && id in w'.bus.pending && id !in w'.bus.trimmed {
      var b, worker := w.bus, w.workers[e.w];
      if id in b.pending {
        var i :| 0 <= i < |w.workers| && Holds(w.workers[i], id);
        if i == e.w { StepKeepsHeld(b, worker, e, id); }
        assert Holds(w'.workers[i], id);
      } else {
        StepKeepsHeld(b, worker, e, id);
        assert Holds(w'.workers[e.w], id);
      }
    }
  }

  lemma {:induction false} StaysHeld(ws: seq<World>, es: seq<Event>, m: nat, n: nat, id: Id)
    requires IsPath(ws, es) && m <= n < |ws| && HeldIfPending(ws[m], id) && forall i | m <= i < n :: OnlyMovesFail(es[i])
    ensures HeldIfPending(ws[n], id)
  {
    if m < n {
      StaysHeld(ws, es, m, n - 1, id);
      assert ws[n - 1 + 1] == After(ws[n - 1], es[n - 1]);
      StepKeepsHeldIfPending(ws[n - 1], es[n - 1], id);
    }
  }

  /** When nothing but NLP failures and moves goes wrong from some point on, a rest of all workers
      finds every message acked that was delivered since, unless it was trimmed. */
  lemma AllDeliveredAreAcked(ws: seq<World>, es: seq<Event>, m: nat, n: nat, id: Id)
    requires IsRun(ws, es) && m <= n < |ws| && forall i | m <= i < n :: OnlyMovesFail(es[i])
    requires forall i | 0 <= i < |ws[n].workers| :: ws[n].workers[i] == Idle
    requires ws[m].bus.cursor <= id < ws[n].bus.cursor && id !in ws[n].bus.trimmed
    ensures id in ws[n].bus.acked
  {
    InvariantHolds(ws, es, m);
    InvariantHolds(ws, es, n);
    StaysHeld(ws, es, m, n, id);
  }

  lemma FaultlessForgetsTrimmed(w: World, e: Event, id: Id)
    requires Enabled(w, e) && Faultless(e) && Forgotten(w, e, id) > 0
    ensures id in w.bus.trimmed
  {
  }

  lemma {:induction false} StreamGrows(ws: seq<World>, es: seq<Event>, k: nat, n: nat)
    requires IsPath(ws, es) && k <= n < |ws|
    ensures ws[k].bus.raw <= ws[n].bus.raw && ws[k].bus.trimmed <= ws[n].bus.trimmed
  {
    if k < n {
      StreamGrows(ws, es, k, n - 1);
      var w, e := ws[n - 1], es[n - 1];
      assert ws[n - 1 + 1] == After(w, e) && Enabled(w, e);
      if !e.Produce? && !e.Trim? { StepGrows(w.bus, w.workers[e.w], e); }
    }
  }

  /** When nothing but NLP failures goes wrong from some point on, a rest of all workers finds
      every message that was delivered since, unless it was trimmed, acked and logged exactly
      once, as an analysed event or as a dead letter. */
  lemma AllDeliveredAreLogged(ws: seq<World>, es: seq<Event>, m: nat, n: nat, id: Id)
    requires IsRun(ws, es) && m <= n < |ws| && forall i | m <= i < n :: Faultless(es[i])
    requires forall i | 0 <= i < |ws[n].workers| :: ws[n].workers[i] == Idle
    requires ws[m].bus.cursor <= id < ws[n].bus.cursor && id !in ws[n].bus.trimmed
    ensures var b := ws[n].bus;
            id in b.acked && (id in Ids(b.analyzed) <==> id !in b.dead)
  {
    AllDeliveredAreAcked(ws, es, m, n, id);
    EachIsSomewhereOrForgotten(ws, es, m, id);
    NeverForgotten(ws, es, m, id);
    forall k | 0 <= k < n ensures Forgotten(ws[k], es[k], id) == 0 {
      if k >= m && Forgotten(ws[k], es[k], id) > 0 {
        FaultlessForgetsTrimmed(ws[k], es[k], id);
        StreamGrows(ws, es, k, n);
      }
    }
    UnloggedExactlyWhenForgotten(ws, es, n, id);
    LoggedAtMostOnce(ws, es, n);
  }

  // ---------------------------------------------------------------------------------------
  // Each message is logged as its analysis said

  /** The analysis of a published mention: a result of the first attempt, or of the second one
      after a transient error, gives the event with all fields of the mention. */
  lemma AnalysisOutcome(m: Mention, eventId: string, version: string, first: Nlp, second: Nlp)
    ensures Analyze(Flatten(RawMention(Cut(m), eventId, version)), first, second) ==
            if first.Result? then Some(AnalyzedMention(Cut(m), first.r))
            else if first.Transient? && second.Result? then Some(AnalyzedMention(Cut(m), second.r))
            else None
  {
    if first.Result? {
      AnalysisCopiesMention(m, eventId, version, first.r);
    } else if second.Result? {
      AnalysisCopiesMention(m, eventId, version, second.r);
    }
  }

  predicate Analyses(w: World, e: Event, id: Id) {
    e.AnalyzeNext? && Enabled(w, e) && w.workers[e.w].todo[0] == id
  }

  predicate AnalysesAs(w: World, e: Event, id: Id, outcome: Option<AnalyzedMention>) {
    Analyses(w, e, id) && Analyze(w.bus.raw[id], e.first, e.second) == outcome
  }

  ghost predicate AnalysedAs(ws: seq<World>, es: seq<Event>, n: nat, id: Id, outcome: Option<AnalyzedMention>)
    requires n <= |es| < |ws|
  {
    exists k :: 0 <= k < n && AnalysesAs(ws[k], es[k], id, outcome)
  }

  ghost function KnownBy(ws: seq<World>, es: seq<Event>, n: nat): (Id, Option<AnalyzedMention>) -> bool
    requires n <= |es| < |ws|
  {
    (id: Id, outcome: Option<AnalyzedMention>) => AnalysedAs(ws, es, n, id, outcome)
  }

  function DoneOf(w: Worker): seq<Logged> { if w.Analyzing? then w.done else [] }

  function FailedOf(w: Worker): seq<Id> { if w.Idle? then [] else w.failed }

  /** What a worker and the logs say of messages was the outcome of their analysis. */
  ghost predicate Honest(w: Worker, known: (Id, Option<AnalyzedMention>) -> bool) {
    && (forall l | l in DoneOf(w) :: known(l.id, Some(l.event)))
    && (forall id | id in FailedOf(w) :: known(id, None))
  }

  ghost predicate HonestLogs(b: Bus, known: (Id, Option<AnalyzedMention>) -> bool) {
    && (forall l | l in b.analyzed :: known(l.id, Some(l.event)))
    && (forall id | id in b.dead :: known(id, None))
  }

  lemma StepKeepsHonest(b: Bus, w: Worker, e: Event, known: (Id, Option<AnalyzedMention>) -> bool)
    requires LocallyEnabled(b, w, e) && Honest(w, known) && HonestLogs(b, known)
    requires e.AnalyzeNext? ==> known(w.todo[0], Analyze(b.raw[w.todo[0]], e.first, e.second))
    ensures Honest(Local(b, w, e).1, known) && HonestLogs(Local(b, w, e).0, known)
  {
    var (b', w') := Local(b, w, e);
    if e.AnalyzeNext? {
      forall l | l in DoneOf(w') ensures known(l.id, Some(l.event)) { assert l in w.done || l == w'.done[|w.done|]; }
      forall id | id in FailedOf(w') ensures known(id, None) { assert id in w.failed || id == w.todo[0]; }
    } else if e.PublishBatch? {
      assert forall l | l in b'.analyzed :: l in b.analyzed || l in w.done;
    } else if e.MovePublish? {
      assert forall id | id in b'.dead :: id in b.dead || id == w.failed[0];
    } else if FailedOf(w') != [] && FailedOf(w') != FailedOf(w) {
      assert forall id | id in w.failed[1..] :: id in w.failed;
    }
  }

  lemma {:induction false} HonestHolds(ws: seq<World>, es: seq<Event>, n: nat)
    requires IsRun(ws, es) && n < |ws|
    ensures var known := KnownBy(ws, es, n);
            HonestLogs(ws[n].bus, known) && forall i | 0 <= i < |ws[n].workers| :: Honest(ws[n].workers[i], known)
  {
    if n > 0 {
      HonestHolds(ws, es, n - 1);
      var w, e, w' := ws[n - 1], es[n - 1], ws[n];
      assert ws[n - 1 + 1] == After(w, e) && Enabled(w, e);
      var known := KnownBy(ws, es, n);
      forall id: Id, outcome | AnalysedAs(ws, es, n - 1, id, outcome) ensures known(id, outcome) {
        var k :| 0 <= k < n - 1 && AnalysesAs(ws[k], es[k], id, outcome);
      }
      if !e.Produce? && !e.Trim? {
        var b, worker := w.bus, w.workers[e.w];
        if e.AnalyzeNext? {
          assert AnalysesAs(ws[n - 1], es[n - 1], worker.todo[0], Analyze(b.raw[worker.todo[0]], e.first, e.second));
        }
        StepKeepsHonest(b, worker, e, known);
      }
    }
  }

  /** How often a worker still has to analyse a message. */
  function ToDo(w: Worker, id: Id): nat { if w.Analyzing? then Occurrences(w.todo, id) else 0 }

  function AllToDo(workers: seq<Worker>, id: Id): nat {
    if workers == [] then 0 else AllToDo(workers[..|workers| - 1], id) + ToDo(workers[|workers| - 1], id)
  }

  lemma {:induction false} AllToDoUpdate(workers: seq<Worker>, i: nat, w: Worker, id: Id)
    requires i < |workers|
    ensures AllToDo(workers[i := w], id) + ToDo(workers[i], id) == AllToDo(workers, id) + ToDo(w, id)
  {
    var n := |workers| - 1;
    if i == n {
      assert workers[i := w][..n] == workers[..n];
    } else {
      AllToDoUpdate(workers[..n], i, w, id);
      assert workers[i := w][..n] == workers[..n][i := w];
    }
  }

  lemma {:induction false} NothingToDo(workers: seq<Worker>, id: Id)
    requires forall i | 0 <= i < |workers| :: workers[i] == Idle
    ensures AllToDo(workers, id) == 0
  {
    if workers != [] { NothingToDo(workers[..|workers| - 1], id); }
  }

  /** How often the first `n` steps analyse a message. */
  ghost function AnalysisCount(ws: seq<World>, es: seq<Event>, n: nat, id: Id): nat
    requires n <= |es| < |ws|
  {
    if n == 0 then 0 else AnalysisCount(ws, es, n - 1, id) + if Analyses(ws[n - 1], es[n - 1], id) then 1 else 0
  }

  lemma StepToDo(b: Bus, w: Worker, e: Event, id: Id)
    requires LocallyEnabled(b, w, e)
    ensures ToDo(Local(b, w, e).1, id) + (if e.AnalyzeNext? && w.todo[0] == id then 1 else 0) <= ToDo(w, id) + Delivers(b, e, id)
  {
    if e.AnalyzeNext? { CountHead(w.todo, id); }
  }

  /** Every message is analysed once at most. */
  lemma {:induction false} AnalysedOnce(ws: seq<World>, es: seq<Event>, n: nat, id: Id)
    requires IsRun(ws, es) && n < |ws|
    ensures AllToDo(ws[n].workers, id) + AnalysisCount(ws, es, n, id) <= if id < ws[n].bus.cursor then 1 else 0
  {
    if n == 0 {
      NothingToDo(ws[0].workers, id);
    } else {
      AnalysedOnce(ws, es, n - 1, id);
      var w, e := ws[n - 1], es[n - 1];
      assert ws[n - 1 + 1] == After(w, e) && Enabled(w, e);
      if !e.Produce? && !e.Trim? {
        StepToDo(w.bus, w.workers[e.w], e, id);
        AllToDoUpdate(w.workers, e.w, ws[n].workers[e.w], id);
        if e.Consume? { RangeOnce(w.bus.cursor, e.n, id); }
      }
    }
  }

  lemma {:induction false} AnalysisCounted(ws: seq<World>, es: seq<Event>, n: nat, id: Id, k: nat)
    requires k < n <= |es| < |ws| && Analyses(ws[k], es[k], id)
    ensures AnalysisCount(ws, es, n, id) >= AnalysisCount(ws, es, k, id) + 1
  {
    if k < n - 1 { AnalysisCounted(ws, es, n - 1, id, k); }
  }

  lemma OneAnalysis(ws: seq<World>, es: seq<Event>, n: nat, id: Id, k: nat, k': nat)
    requires IsRun(ws, es) && n < |ws| && k < n && k' < n && Analyses(ws[k], es[k], id) && Analyses(ws[k'], es[k'], id)
    ensures k == k'
  {
    AnalysedOnce(ws, es, n, id);
    if k < k' {
      AnalysisCounted(ws, es, k', id, k);
      AnalysisCounted(ws, es, n, id, k');
    } else if k' < k {
      AnalysisCounted(ws, es, k, id, k');
      AnalysisCounted(ws, es, n, id, k);
    }
  }

  /** In every run a message is in the analysed log only with the event that its one analysis gave,
      and in the dead-letter log only if that analysis gave none. */
  lemma LoggedAsAnalysed(ws: seq<World>, es: seq<Event>, n: nat, id: Id, k: nat)
    requires IsRun(ws, es) && n < |ws| && k < n && Analyses(ws[k], es[k], id)
    ensures var outcome := Analyze(ws[k].bus.raw[id], es[k].first, es[k].second);
            && (forall l | l in ws[n].bus.analyzed && l.id == id :: outcome == Some(l.event))
            && (id in ws[n].bus.dead ==> outcome == None)
  {
    HonestHolds(ws, es, n);
    forall l | l in ws[n].bus.analyzed && l.id == id
      ensures Analyze(ws[k].bus.raw[id], es[k].first, es[k].second) == Some(l.event)
    {
      assert AnalysedAs(ws, es, n, id, Some(l.event));
      var k': nat :| k' < n && AnalysesAs(ws[k'], es[k'], id, Some(l.event));
      OneAnalysis(ws, es, n, id, k, k');
    }
    if id in ws[n].bus.dead {
      assert AnalysedAs(ws, es, n, id, None);
      var k': nat :| k' < n && AnalysesAs(ws[k'], es[k'], id, None);
      OneAnalysis(ws, es, n, id, k, k');
    }
  }

  /** Under the same conditions a delivered mention has been analysed: it is in the analysed log,
      with all its fields and the result, exactly if the analysis gave one at the first attempt or
      after a transient error, and in the dead-letter log otherwise. */
  lemma MentionIsLoggedAsAnalysed(ws: seq<World>, es: seq<Event>, start: nat, n: nat, id: Id, m: Mention, eventId: string, version: string) returns (k: nat)
    requires IsRun(ws, es) && start <= n < |ws| && forall i | start <= i < n :: Faultless(es[i])
    requires forall i | 0 <= i < |ws[n].workers| :: ws[n].workers[i] == Idle
    requires ws[start].bus.cursor <= id < ws[n].bus.cursor && id !in ws[n].bus.trimmed
    requires id < |ws[n].bus.raw| && ws[n].bus.raw[id] == Flatten(RawMention(Cut(m), eventId, version))
    ensures k < n && Analyses(ws[k], es[k], id)
    ensures var b, first, second := ws[n].bus, es[k].first, es[k].second;
            if first.Result? then Logged(id, AnalyzedMention(Cut(m), first.r)) in b.analyzed && id !in b.dead
            else if first.Transient? && second.Result? then Logged(id, AnalyzedMention(Cut(m), second.r)) in b.analyzed && id !in b.dead
            else id in b.dead && id !in Ids(b.analyzed)
  {
    var b := ws[n].bus;
    AllDeliveredAreLogged(ws, es, start, n, id);
    HonestHolds(ws, es, n);
    if id in b.dead {
      assert AnalysedAs(ws, es, n, id, None);
      k :| k < n && AnalysesAs(ws[k], es[k], id, None);
    } else {
      var i :| 0 <= i < |b.analyzed| && Ids(b.analyzed)[i] == id;
      var l := b.analyzed[i];
      assert l in b.analyzed && AnalysedAs(ws, es, n, id, Some(l.event));
      k :| k < n && AnalysesAs(ws[k], es[k], id, Some(l.event));
    }
    StreamGrows(ws, es, k, n);
    AnalysisOutcome(m, eventId, version, es[k].first, es[k].second);
  }
}
