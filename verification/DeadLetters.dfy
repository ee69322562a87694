/** Dead letters in `shared/events.py`: `consume_with_retry`, `move_to_dlq` and `reprocess_dlq`,
    run by any number of agents over one stream and its dead-letter stream, with Redis errors
    and crashes at every await. Both streams are whole histories whose copies are marked when
    they are acked or deleted. */
module DeadLetters {
  import opened Wrappers
  import opened Deliveries
  import Decimal

  /** The flat form of a message in a stream. */
  type Body = map<string, string>

  datatype Loaded = Invalid | Object(body: Body) | NotAnObject

  /** JSON; a loaded object is given with each value as `publish_raw` writes it. */
  datatype Codec = Codec(dumps: Body -> string, loads: string -> Loaded)

  ghost predicate Lawful(c: Codec) {
    forall b :: c.dumps(b) != "" && c.loads(c.dumps(b)) == Object(b)
  }

  const RETRY_COUNT := "_retry_count"
  const ORIGINAL_DATA := "original_data"

  /** The fields of a `DLQEntry` other than the original message, in their flat form. */
  type Details = Body

  function Entry(d: Details, data: string): Body { d[ORIGINAL_DATA := data] }

  function Reset(b: Body): Body { b[RETRY_COUNT := "0"] }

  /** What `reprocess_dlq` publishes for an entry; `None` is a TypeError. */
  function Restored(c: Codec, entry: Body): Option<Body> {
    if ORIGINAL_DATA in entry && entry[ORIGINAL_DATA] != "" then
      match c.loads(entry[ORIGINAL_DATA])
      case Object(body) => Some(Reset(body))
      case Invalid => Some(Reset(entry))
      case NotAnObject => None
    else
      Some(Reset(map k | k in entry && !("_" <= k) :: entry[k]))
  }

  /** Whether a failed message goes to the dead-letter stream (`Some(true)`) or stays pending;
      `None` is the ValueError of an unreadable retry count. */
  function Disposition(b: Body, maxRetries: int): Option<bool> {
    match Decimal.ParseInt(if RETRY_COUNT in b then b[RETRY_COUNT] else "0")
    case None => None
    case Some(retries) => Some(retries >= maxRetries)
  }

  /** What the retry count of a body reads as; a body without one counts as fresh. */
  function CountOf(b: Body): Option<int> {
    if RETRY_COUNT !in b then Some(0) else Decimal.ParseInt(b[RETRY_COUNT])
  }

  predicate Readable(b: Body) { CountOf(b).Some? }

  /** The count reaches the limit. */
  predicate Exhausted(b: Body, limit: int) { CountOf(b).Some? && CountOf(b).value >= limit }

  /** Exhausted messages are dead-lettered, others stay pending, and an unreadable count raises. */
  lemma DispositionTells(b: Body, limit: int)
    ensures Disposition(b, limit) == if !Readable(b) then None else Some(Exhausted(b, limit))
  {
    Decimal.ParseStr(0);
    assert Decimal.Str(0) == "0";
  }

  /** A printed count reads as the number that was printed. */
  lemma PrintedCount(b: Body, r: int, limit: int)
    requires if RETRY_COUNT in b then b[RETRY_COUNT] == Decimal.Str(r) else r == 0
    ensures Readable(b) && (Exhausted(b, limit) <==> r >= limit)
  {
    Decimal.ParseStr(r);
  }

  /** A reset changes the retry count to "0" and nothing else. */
  lemma ResetTells(b: Body)
    ensures Reset(b).Keys == b.Keys + {"_retry_count"} && Reset(b)["_retry_count"] == "0" && CountOf(Reset(b)) == Some(0)
    ensures forall k | k in b && k != "_retry_count" :: Reset(b)[k] == b[k]
  {
    Decimal.ParseStr(0);
    assert Decimal.Str(0) == "0";
  }

  /** What comes back of an entry: of a structured one the decoded message, or the whole entry when
      it does not decode; of an older one the fields whose names do not start with an underscore. */
  lemma RestoredTells(c: Codec, entry: Body)
    ensures var structured := "original_data" in entry && entry["original_data"] != "";
            var r := Restored(c, entry);
            && (r.None? <==> structured && c.loads(entry["original_data"]).NotAnObject?)
            && (structured && c.loads(entry["original_data"]).Object? ==> r == Some(c.loads(entry["original_data"]).body["_retry_count" := "0"]))
            && (structured && c.loads(entry["original_data"]).Invalid? ==> r == Some(entry["_retry_count" := "0"]))
            && (!structured ==>
                  && r.Some? && "_retry_count" in r.value && r.value["_retry_count"] == "0"
                  && forall k | k != "_retry_count" ::
                       (k in r.value <==> k in entry && (k == "" || k[0] != '_')) && (k in r.value ==> r.value[k] == entry[k]))
  {
    forall k: string ensures "_" <= k <==> k != "" && k[0] == '_' {}
  }

  /** `Away` copies were acked by `move_to_dlq` or deleted by `reprocess_dlq`; `Rescued` ones were
      acked after a move that wrote nothing. */
  datatype Status = Live | Handled | Away | Rescued

  /** `root` is the position at which the message was first published. */
  datatype Copy = Copy(root: nat, body: Body, status: Status)

  datatype Streams = Streams(log: seq<Copy>, cursor: nat, dlq: seq<Copy>)

  /** The lists are positions in the stream, or in the dead-letter stream for the last two.
      `spare` says that a letter was written and the copy it stands for is still to be acked. */
  datatype Agent =
    | Working(todo: seq<Id>)
    | Moving(todo: seq<Id>)
    | MoveAcking(todo: seq<Id>, root: nat)
    | Raised(todo: seq<Id>, root: nat, spare: bool)
    | Reprocessing(todo: seq<Id>)
    | Deleting(todo: seq<Id>, root: nat)

  const IDLE := Working([])

  datatype World = World(streams: Streams, agents: seq<Agent>)

  /** The caller of `move_to_dlq`: `consume_with_retry` with its limit, or one that moves every
      failed message, like the analyzer. */
  datatype Policy = Retrying(maxRetries: int) | AtOnce

  datatype Event =
    | Produce(body: Body)
    | Deliver(w: nat, n: nat, fate: Fate)
    | Handle(w: nat, fate: Fate)
    | Fail(w: nat, policy: Policy)
    | WriteLetter(w: nat, details: Details, fate: Fate)
    | AckMoved(w: nat, fate: Fate)
    | Rescue(w: nat, fate: Fate)
    | Snapshot(w: nat, count: nat)
    | Republish(w: nat, fate: Fate)
    | Delete(w: nat, fate: Fate)
    | Finish(w: nat)
    | Crash(w: nat)

  predicate LocallyEnabled(b: Streams, a: Agent, e: Event) {
    match e
    case Produce(_) => false
    case Deliver(_, n, _) => a == IDLE && b.cursor + n <= |b.log|
    case Handle(_, _) => a.Working? && a.todo != [] && a.todo[0] < |b.log|
    case Fail(_, _) => a.Working? && a.todo != [] && a.todo[0] < |b.log|
    case WriteLetter(_, _, _) => a.Moving? && a.todo != [] && a.todo[0] < |b.log|
    case AckMoved(_, _) => a.MoveAcking? && a.todo != [] && a.todo[0] < |b.log|
    case Rescue(_, _) => a.Raised? && a.todo != [] && a.todo[0] < |b.log|
    case Snapshot(_, _) => a == IDLE
    case Republish(_, _) => a.Reprocessing? && a.todo != [] && a.todo[0] < |b.dlq|
    case Delete(_, _) => a.Deleting? && a.todo != [] && a.todo[0] < |b.dlq|
    case Finish(_) => a == Reprocessing([])
    case Crash(_) => true
  }

  predicate Enabled(w: World, e: Event) {
    e.Produce? || (e.w < |w.agents| && LocallyEnabled(w.streams, w.agents[e.w], e))
  }

  /** XACK or XDEL, which do nothing the second time. */
  function Mark(s: seq<Copy>, i: nat, status: Status, fate: Fate): seq<Copy>
    requires i < |s|
  {
    if TakesEffect(fate) && s[i].status == Live then s[i := s[i].(status := status)] else s
  }

  /** XRANGE over the entries that have not been deleted. */
  function Letters(s: seq<Copy>): (r: seq<Id>)
    ensures forall i | i in r :: i < |s|
  {
    if s == [] then []
    else
      var n := |s| - 1;
      if s[n].status == Live then Letters(s[..n]) + [n] else Letters(s[..n])
  }

  function Take(s: seq<Id>, count: nat): seq<Id> { if count < |s| then s[..count] else s }

  function Local(c: Codec, b: Streams, a: Agent, e: Event): (Streams, Agent)
    requires LocallyEnabled(b, a, e)
  {
    match e
    case Deliver(_, n, fate) =>
      (if TakesEffect(fate) then b.(cursor := b.cursor + n) else b,
       if fate.Works? then Working(Range(b.cursor, n)) else IDLE)
    case Handle(_, fate) =>
      (b.(log := Mark(b.log, a.todo[0], Handled, fate)), if fate.Works? then Working(a.todo[1..]) else a)
    case Fail(_, AtOnce) => (b, Moving(a.todo))
    case Fail(_, Retrying(max)) =>
      (b,
       match Disposition(b.log[a.todo[0]].body, max)
       case None => IDLE
       case Some(dead) => if dead then Moving(a.todo) else Working(a.todo[1..]))
    case WriteLetter(_, details, fate) =>
      var copy := b.log[a.todo[0]];
      var letter := Copy(copy.root, Entry(details, c.dumps(copy.body)), Live);
      (if TakesEffect(fate) then b.(dlq := b.dlq + [letter]) else b,
       if fate.Works? then MoveAcking(a.todo, copy.root) else Raised(a.todo, copy.root, TakesEffect(fate)))
    case AckMoved(_, fate) =>
      (b.(log := Mark(b.log, a.todo[0], Away, fate)),
       if fate.Works? then Working(a.todo[1..]) else Raised(a.todo, a.root, fate == RaisesBefore))
    case Rescue(_, fate) =>
      (b.(log := Mark(b.log, a.todo[0], if a.spare then Away else Rescued, fate)),
       if fate.Works? then Working(a.todo[1..]) else IDLE)
    case Snapshot(_, count) => (b, Reprocessing(Take(Letters(b.dlq), count)))
    case Republish(_, fate) =>
      var letter := b.dlq[a.todo[0]];
      (match Restored(c, letter.body)
       case None => (b, IDLE)
       case Some(body) =>
         (if TakesEffect(fate) then b.(log := b.log + [Copy(letter.root, body, Live)]) else b,
          if fate.Works? then Deleting(a.todo, letter.root) else IDLE))
    case Delete(_, fate) =>
      (b.(dlq := Mark(b.dlq, a.todo[0], Away, fate)), if fate.Works? then Reprocessing(a.todo[1..]) else IDLE)
    case Finish(_) => (b, IDLE)
    case Crash(_) => (b, IDLE)
  }

  function After(c: Codec, w: World, e: Event): World
    requires Enabled(w, e)
  {
    match e
    case Produce(body) =>
      w.(streams := w.streams.(log := w.streams.log + [Copy(|w.streams.log|, body, Live)]))
    case _ =>
      var (b, a) := Local(c, w.streams, w.agents[e.w], e);
      World(b, w.agents[e.w := a])
  }

  ghost predicate IsPath(c: Codec, ws: seq<World>, es: seq<Event>) {
    |ws| == |es| + 1 &&
    forall i | 0 <= i < |es| :: Enabled(ws[i], es[i]) && ws[i + 1] == After(c, ws[i], es[i])
  }

  ghost predicate Fresh(w: World) {
    w.streams == Streams([], 0, []) && forall a | a in w.agents :: a == IDLE
  }

  ghost predicate IsRun(c: Codec, ws: seq<World>, es: seq<Event>) {
    Lawful(c) && IsPath(c, ws, es) && Fresh(ws[0])
  }
}
