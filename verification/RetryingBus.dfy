/** `consume_with_retry`, `move_to_dlq` and `reprocess_dlq` of `shared/events.py` with their
    loops and error handling. Each call is a path of the machine in `DeadLetters`, so the
    theorems about its runs apply to them. */
module RetryingBus {
  import opened Wrappers
  import opened Deliveries
  import opened DeadLetters
  import opened DeadLetterRuns
  import Decimal

  /** The entries that `reprocess_dlq` publishes, in the order of the dead-letter stream. */
  function Republished(c: Codec, dlq: seq<Copy>, ids: seq<Id>): seq<Copy>
    requires Restorable(c, dlq, ids)
  {
    seq(|ids|, i requires 0 <= i < |ids| => Copy(dlq[ids[i]].root, Restored(c, dlq[ids[i]].body).value, Live))
  }

  predicate Restorable(c: Codec, dlq: seq<Copy>, ids: seq<Id>) {
    forall i | 0 <= i < |ids| :: ids[i] < |dlq| && Restored(c, dlq[ids[i]].body).Some?
  }

  function Deleted(dlq: seq<Copy>, ids: seq<Id>): seq<Copy> {
    seq(|dlq|, j requires 0 <= j < |dlq| => if j in ids && dlq[j].status == Live then dlq[j].(status := Away) else dlq[j])
  }

  lemma DeletedOneMore(dlq: seq<Copy>, ids: seq<Id>, i: nat)
    requires i < |ids| && ids[i] < |dlq|
    ensures Deleted(dlq, ids[..i + 1]) == Mark(Deleted(dlq, ids[..i]), ids[i], Away, Works)
  {
    assert ids[..i + 1] == ids[..i] + [ids[i]];
  }

  /** The first `published` of the letters are back in the stream, in order, and the first
      `deleted` are gone from the dead-letter stream. */
  ghost predicate Reprocessed(c: Codec, was: Streams, letters: seq<Id>, published: nat, deleted: nat, now: Streams) {
    && deleted <= published <= |letters|
    && Restorable(c, was.dlq, letters[..published])
    && now.log == was.log + Republished(c, was.dlq, letters[..published])
    && now.dlq == Deleted(was.dlq, letters[..deleted])
    && now.cursor == was.cursor
  }

  /** One letter published again and deleted: whether that went through, and the streams
      afterwards. */
  function ReprocessStep(c: Codec, b: Streams, id: Id, publish: Fate, delete: Fate): (r: (bool, Streams))
    requires id < |b.dlq|
    ensures |r.1.dlq| == |b.dlq|
  {
    match Restored(c, b.dlq[id].body)
    case None => (false, b)
    case Some(body) =>
      var b' := if TakesEffect(publish) then b.(log := b.log + [Copy(b.dlq[id].root, body, Live)]) else b;
      if publish.Works? then (delete.Works?, b'.(dlq := Mark(b.dlq, id, Away, delete))) else (false, b')
  }

  predicate Inside(ids: seq<Id>, s: seq<Copy>) { forall i | 0 <= i < |ids| :: ids[i] < |s| }

  /** The first `i` letters; an exception ends the call. */
  function ReprocessSteps(c: Codec, b: Streams, letters: seq<Id>, fates: nat -> Fate, i: nat): (r: (bool, Streams))
    requires i <= |letters| && Inside(letters, b.dlq)
    ensures |r.1.dlq| == |b.dlq|
  {
    if i == 0 then (true, b)
    else
      var (ok, before) := ReprocessSteps(c, b, letters, fates, i - 1);
      if ok then ReprocessStep(c, before, letters[i - 1], fates(2 * i), fates(2 * i + 1)) else (false, before)
  }

  lemma {:induction false} FailedReprocessingEnds(c: Codec, b: Streams, letters: seq<Id>, fates: nat -> Fate, i: nat, n: nat)
    requires i <= n <= |letters| && Inside(letters, b.dlq) && !ReprocessSteps(c, b, letters, fates, i).0
    ensures ReprocessSteps(c, b, letters, fates, n) == ReprocessSteps(c, b, letters, fates, i)
  {
    if i < n { FailedReprocessingEnds(c, b, letters, fates, i, n - 1); }
  }

  lemma ReprocessedOneMore(c: Codec, was: Streams, letters: seq<Id>, i: nat, now: Streams, next: Streams, published: bool, deleted: bool)
    requires i < |letters| && letters[i] < |was.dlq| && Reprocessed(c, was, letters, i, i, now)
    requires deleted ==> published
    requires var letter := now.dlq[letters[i]];
             && next.cursor == now.cursor
             && (if published then Restored(c, letter.body).Some? && next.log == now.log + [Copy(letter.root, Restored(c, letter.body).value, Live)]
                 else next.log == now.log)
             && next.dlq == if deleted then Mark(now.dlq, letters[i], Away, Works) else now.dlq
    ensures Reprocessed(c, was, letters, if published then i + 1 else i, if deleted then i + 1 else i, next)
    ensures now.dlq[letters[i]].body == was.dlq[letters[i]].body
  {
    if deleted { DeletedOneMore(was.dlq, letters, i); }
    if published {
      assert letters[..i + 1] == letters[..i] + [letters[i]];
      assert Restorable(c, was.dlq, letters[..i + 1]);
      var copy := Copy(was.dlq[letters[i]].root, Restored(c, was.dlq[letters[i]].body).value, Live);
      assert Republished(c, was.dlq, letters[..i + 1]) == Republished(c, was.dlq, letters[..i]) + [copy];
    }
  }

  /** Letters go back in their order: a prefix of them has been published and all of it, but for
      the last one perhaps, deleted; it is all of them when nothing raised. */
  lemma {:induction false} ReprocessedInOrder(c: Codec, b: Streams, letters: seq<Id>, fates: nat -> Fate, i: nat) returns (published: nat, deleted: nat)
    requires i <= |letters| && Inside(letters, b.dlq)
    ensures var (ok, after) := ReprocessSteps(c, b, letters, fates, i);
            && Reprocessed(c, b, letters, published, deleted, after)
            && published <= deleted + 1 && published <= i
            && (ok ==> published == deleted == i)
            && ((forall k :: fates(k).Works?) && Restorable(c, b.dlq, letters) ==> ok)
  {
    if i == 0 {
      published, deleted := 0, 0;
      assert Deleted(b.dlq, letters[..0]) == b.dlq;
    } else {
      published, deleted := ReprocessedInOrder(c, b, letters, fates, i - 1);
      var (ok, now) := ReprocessSteps(c, b, letters, fates, i - 1);
      if ok {
        var publish, delete := fates(2 * i), fates(2 * i + 1);
        var once := Restored(c, now.dlq[letters[i - 1]].body).Some? && TakesEffect(publish);
        var gone := once && publish.Works? && TakesEffect(delete);
        ReprocessedOneMore(c, b, letters, i - 1, now, ReprocessSteps(c, b, letters, fates, i).1, once, gone);
        published, deleted := if once then i else i - 1, if gone then i else i - 1;
      }
    }
  }

  /** In every state of a run all letters can be restored, and what comes back is the message as
      first published, with its retry count set to "0". */
  lemma OriginalsComeBack(c: Codec, b: Streams, letters: seq<Id>)
    requires SoundBodies(c, b) && Inside(letters, b.dlq)
    ensures Restorable(c, b.dlq, letters)
    ensures forall i | 0 <= i < |letters| ::
              var copy := Republished(c, b.dlq, letters)[i];
              copy.root == b.dlq[letters[i]].root && IsRoot(b, copy.root) && copy.body == Reset(b.log[copy.root].body)
  {
    forall i | 0 <= i < |letters| ensures SoundLetter(c, b, b.dlq[letters[i]]) {
      assert b.dlq[letters[i]] in b.dlq;
    }
  }

  /** What a failed message's letter says. */
  function LetterOf(c: Codec, copy: Copy, details: Details): Copy {
    Copy(copy.root, Entry(details, c.dumps(copy.body)), Live)
  }

  /** The handler's outcome per message, and the fate of each command that the call may issue. */
  datatype Inputs = Inputs(succeeds: Id -> bool, maxRetries: int, details: Id -> Details, fates: nat -> Fate)

  /** `move_to_dlq`: whether it returned, and the streams afterwards. */
  function MoveStep(c: Codec, b: Streams, id: Id, details: Details, publish: Fate, ack: Fate): (r: (bool, Streams))
    requires id < |b.log|
    ensures |r.1.log| == |b.log| && r.1.cursor == b.cursor
  {
    var b' := if TakesEffect(publish) then b.(dlq := b.dlq + [LetterOf(c, b.log[id], details)]) else b;
    if publish.Works? then (ack.Works?, b'.(log := Mark(b.log, id, Away, ack))) else (false, b')
  }

  /** One message of `consume_with_retry`, whose commands have fates `k`, `k + 1` and `k + 2`. */
  function ConsumeStep(c: Codec, b: Streams, id: Id, x: Inputs, k: nat): (r: (bool, Streams))
    requires id < |b.log|
    ensures |r.1.log| == |b.log| && r.1.cursor == b.cursor
  {
    match Disposition(b.log[id].body, x.maxRetries)
    case None => (false, b)
    case Some(dead) =>
      var b' := if x.succeeds(id) then b.(log := Mark(b.log, id, Handled, x.fates(k))) else b;
      if (x.succeeds(id) && x.fates(k).Works?) || !dead then (true, b')
      else MoveStep(c, b', id, x.details(id), x.fates(k + 1), x.fates(k + 2))
  }

  /** The first `i` messages of the batch; an exception ends the call. */
  function ConsumeSteps(c: Codec, b: Streams, batch: seq<Id>, x: Inputs, i: nat): (r: (bool, Streams))
    requires i <= |batch| && Inside(batch, b.log)
    ensures |r.1.log| == |b.log| && r.1.cursor == b.cursor
  {
    if i == 0 then (true, b)
    else
      var (ok, before) := ConsumeSteps(c, b, batch, x, i - 1);
      if ok then ConsumeStep(c, before, batch[i - 1], x, 3 * i) else (false, before)
  }

  lemma {:induction false} FailureEnds(c: Codec, b: Streams, batch: seq<Id>, x: Inputs, i: nat, n: nat)
    requires i <= n <= |batch| && Inside(batch, b.log) && !ConsumeSteps(c, b, batch, x, i).0
    ensures ConsumeSteps(c, b, batch, x, n) == ConsumeSteps(c, b, batch, x, i)
  {
    if i < n { FailureEnds(c, b, batch, x, i, n - 1); }
  }

  /** What becomes of a message of which the handler succeeds or fails, when Redis works. */
  function Settled(copy: Copy, succeeds: bool, maxRetries: int): Copy {
    if copy.status != Live then copy
    else if succeeds then copy.(status := Handled)
    else if Exhausted(copy.body, maxRetries) then copy.(status := Away)
    else copy
  }

  function AllSettled(log: seq<Copy>, batch: seq<Id>, x: Inputs): seq<Copy> {
    seq(|log|, j requires 0 <= j < |log| => if j in batch then Settled(log[j], x.succeeds(j), x.maxRetries) else log[j])
  }

  predicate IsDead(copy: Copy, id: Id, x: Inputs) {
    !x.succeeds(id) && Exhausted(copy.body, x.maxRetries)
  }

  /** The letters of the failed messages without retries left, in the order of the batch. */
  function NewLetters(c: Codec, log: seq<Copy>, batch: seq<Id>, x: Inputs): seq<Copy>
    requires Inside(batch, log)
  {
    if batch == [] then []
    else
      var n := |batch| - 1;
      var id := batch[n];
      NewLetters(c, log, batch[..n], x) + if IsDead(log[id], id, x) then [LetterOf(c, log[id], x.details(id))] else []
  }

  /** The messages of the batch have been dealt with and nothing else has changed. */
  ghost predicate Consumed(c: Codec, was: Streams, batch: seq<Id>, x: Inputs, now: Streams)
    requires Inside(batch, was.log)
  {
    && now.log == AllSettled(was.log, batch, x)
    && now.dlq == was.dlq + NewLetters(c, was.log, batch, x)
    && now.cursor == was.cursor
  }

  /** Redis works and every retry count of the batch is a number. */
  ghost predicate Smooth(log: seq<Copy>, batch: seq<Id>, x: Inputs)
    requires Inside(batch, log)
  {
    && (forall k :: x.fates(k).Works?)
    && (forall i | 0 <= i < |batch| :: Readable(log[batch[i]].body))
  }

  /** What a message does to the streams when Redis works and its retry count is a number. */
  lemma SmoothStep(c: Codec, b: Streams, id: Id, x: Inputs, k: nat)
    requires id < |b.log| && Readable(b.log[id].body)
    requires x.fates(k).Works? && x.fates(k + 1).Works? && x.fates(k + 2).Works?
    ensures var letters := if IsDead(b.log[id], id, x) then [LetterOf(c, b.log[id], x.details(id))] else [];
            ConsumeStep(c, b, id, x, k) ==
            (true, Streams(b.log[id := Settled(b.log[id], x.succeeds(id), x.maxRetries)], b.cursor, b.dlq + letters))
  {
    DispositionTells(b.log[id].body, x.maxRetries);
    assert b.log[id := b.log[id]] == b.log && b.dlq + [] == b.dlq;
  }

  /** A failed message with a printed count `r` - zero if it has none - is dead-lettered exactly if
      `r` reaches the limit; otherwise nothing changes. */
  lemma FailureDeadLettersExactly(c: Codec, b: Streams, id: Id, x: Inputs, k: nat, r: int)
    requires id < |b.log| && b.log[id].status == Live && !x.succeeds(id)
    requires x.fates(k).Works? && x.fates(k + 1).Works? && x.fates(k + 2).Works?
    requires if "_retry_count" in b.log[id].body then b.log[id].body["_retry_count"] == Decimal.Str(r) else r == 0
    ensures var (ok, after) := ConsumeStep(c, b, id, x, k);
            && ok && |after.dlq| == |b.dlq| + (if r >= x.maxRetries then 1 else 0)
            && (r < x.maxRetries ==> after == b)
            && (r >= x.maxRetries ==> after.log == b.log[id := b.log[id].(status := Away)])
  {
    PrintedCount(b.log[id].body, r, x.maxRetries);
    SmoothStep(c, b, id, x, k);
    assert b.log[id := b.log[id]] == b.log && b.dlq + [] == b.dlq;
  }

  lemma SettledOneMore(log: seq<Copy>, batch: seq<Id>, id: Id, x: Inputs)
    requires id < |log| && id !in batch
    ensures AllSettled(log, batch, x)[id] == log[id]
    ensures AllSettled(log, batch + [id], x) == AllSettled(log, batch, x)[id := Settled(log[id], x.succeeds(id), x.maxRetries)]
  {
  }

  lemma ConsumedOneMore(c: Codec, was: Streams, batch: seq<Id>, id: Id, x: Inputs, now: Streams, k: nat)
    requires Inside(batch, was.log) && id < |was.log| && id !in batch && Consumed(c, was, batch, x, now)
    requires Readable(was.log[id].body) && x.fates(k).Works? && x.fates(k + 1).Works? && x.fates(k + 2).Works?
    ensures var (ok, next) := ConsumeStep(c, now, id, x, k);
            ok && Inside(batch + [id], was.log) && Consumed(c, was, batch + [id], x, next)
  {
    SettledOneMore(was.log, batch, id, x);
    SmoothStep(c, now, id, x, k);
    assert (batch + [id])[..|batch|] == batch;
  }

  ghost predicate ConsumedUpTo(c: Codec, b: Streams, batch: seq<Id>, x: Inputs, i: nat)
    requires i <= |batch| && Inside(batch, b.log)
  {
    var (ok, after) := ConsumeSteps(c, b, batch, x, i);
    ok && Inside(batch[..i], b.log) && Consumed(c, b, batch[..i], x, after)
  }

  /** When Redis works and the retry counts are numbers, the whole batch is dealt with: the
      handled messages are acked, those without retries left become letters in the order of the
      batch, and the others stay pending. */
  lemma {:induction false} SmoothBatchIsConsumed(c: Codec, b: Streams, batch: seq<Id>, x: Inputs, i: nat)
    requires i <= |batch| && Inside(batch, b.log) && Distinct(batch) && Smooth(b.log, batch, x)
    ensures ConsumedUpTo(c, b, batch, x, i)
  {
    if i == 0 {
      assert AllSettled(b.log, batch[..0], x) == b.log;
    } else {
      SmoothBatchIsConsumed(c, b, batch, x, i - 1);
      var id := batch[i - 1];
      assert batch[..i] == batch[..i - 1] + [id];
      ConsumedOneMore(c, b, batch[..i - 1], id, x, ConsumeSteps(c, b, batch, x, i - 1).1, 3 * i);
    }
  }

  // ---------------------------------------------------------------------------------------
  // Calls

  function Available(b: Streams, count: nat): nat
    requires b.cursor <= |b.log|
  {
    if |b.log| - b.cursor < count then |b.log| - b.cursor else count
  }

  function Batch(b: Streams, count: nat): (batch: seq<Id>)
    requires b.cursor <= |b.log|
    ensures Inside(batch, b.log)
  {
    Range(b.cursor, Available(b, count))
  }

  /** XREADGROUP with ">". */
  function Delivered(b: Streams, count: nat, fate: Fate): Streams
    requires b.cursor <= |b.log|
  {
    if TakesEffect(fate) then b.(cursor := b.cursor + Available(b, count)) else b
  }

  /** `consume_with_retry`: whether it returned, and the streams afterwards. */
  function ConsumeCall(c: Codec, b: Streams, count: nat, x: Inputs): (bool, Streams)
    requires b.cursor <= |b.log|
  {
    var delivered, batch := Delivered(b, count, x.fates(0)), Batch(b, count);
    if x.fates(0).Works? then ConsumeSteps(c, delivered, batch, x, |batch|) else (false, delivered)
  }

  function FirstLetters(b: Streams, count: nat): (letters: seq<Id>)
    ensures Inside(letters, b.dlq)
  {
    var all := Letters(b.dlq);
    assert forall i | 0 <= i < |all| :: all[i] in all;
    Take(all, count)
  }

  /** A batch is the next messages, at most `count`; the letters of a call are the first ones,
      at most `count`. */
  lemma CallsTakeTheFirst(b: Streams, count: nat)
    requires b.cursor <= |b.log|
    ensures var batch := Batch(b, count);
            && |batch| <= count && (|batch| < count ==> b.cursor + |batch| == |b.log|)
            && forall i | 0 <= i < |batch| :: batch[i] == b.cursor + i
    ensures FirstLetters(b, count) <= Letters(b.dlq) && |FirstLetters(b, count)| <= count
    ensures |FirstLetters(b, count)| < count ==> FirstLetters(b, count) == Letters(b.dlq)
  {
  }

  /** `reprocess_dlq` over the letters that are there when it starts. */
  function ReprocessCall(c: Codec, b: Streams, count: nat, fates: nat -> Fate): (bool, Streams) {
    var letters := FirstLetters(b, count);
    ReprocessSteps(c, b, letters, fates, |letters|)
  }

  class EventBus {
    const codec: Codec
    var log: seq<Copy>
    var cursor: nat
    var dlq: seq<Copy>

    ghost function View(): Streams
      reads this
    {
      Streams(log, cursor, dlq)
    }

    constructor (codec: Codec)
      ensures this.codec == codec && View() == Streams([], 0, [])
    {
      this.codec := codec;
      log, cursor, dlq := [], 0, [];
    }

    /** Publishes one letter again and deletes it; `false` when that raised. */
    method ReprocessOne(id: Id, publish: Fate, delete: Fate) returns (ok: bool)
      requires id < |dlq|
      modifies this`log, this`dlq
      ensures (ok, View()) == ReprocessStep(codec, old(View()), id, publish, delete)
    {
      match Restored(codec, dlq[id].body) {
        case None => return false;
        case Some(body) =>
          if TakesEffect(publish) {
            log := log + [Copy(dlq[id].root, body, Live)];
          }
      }
      if !publish.Works? {
        return false;
      }
      dlq := Mark(dlq, id, Away, delete);
      ok := delete.Works?;
    }

    /** `reprocess_dlq`; `moved` is what it returns. */
    method ReprocessDlq(count: nat, fates: nat -> Fate) returns (ok: bool, moved: nat)
      modifies this`log, this`dlq
      ensures (ok, View()) == ReprocessCall(codec, old(View()), count, fates)
      ensures ok ==> moved == |FirstLetters(old(View()), count)|
    {
      var letters := FirstLetters(Streams(log, cursor, dlq), count);
      ok, moved := ReprocessAll(letters, fates);
    }

    method ReprocessAll(letters: seq<Id>, fates: nat -> Fate) returns (ok: bool, moved: nat)
      requires Inside(letters, dlq)
      modifies this`log, this`dlq
      ensures (ok, View()) == ReprocessSteps(codec, old(View()), letters, fates, |letters|)
      ensures ok ==> moved == |letters|
    {
      ghost var was := View();
      ok, moved := true, 0;
      while ok && moved < |letters|
        invariant moved <= |letters| && |dlq| == |was.dlq|
        invariant ReprocessSteps(codec, was, letters, fates, moved) == (ok, View())
      {
        ok := ReprocessOne(letters[moved], fates(2 * moved + 2), fates(2 * moved + 3));
        moved := moved + 1;
      }
      if !ok { FailedReprocessingEnds(codec, was, letters, fates, moved, |letters|); }
    }

    /** `move_to_dlq`: the letter is written before the message is acked; `false` when it raised. */
    method MoveToDlq(id: Id, details: Details, publish: Fate, ack: Fate) returns (ok: bool)
      requires id < |log|
      modifies this`log, this`dlq
      ensures (ok, View()) == MoveStep(codec, old(View()), id, details, publish, ack)
    {
      if TakesEffect(publish) {
        dlq := dlq + [LetterOf(codec, log[id], details)];
      }
      if !publish.Works? {
        return false;
      }
      log := Mark(log, id, Away, ack);
      ok := ack.Works?;
    }

    /** One message of `consume_with_retry`: handled and acked, dead-lettered, or left pending.
        `false` when an exception leaves the loop. */
    method ConsumeOne(id: Id, x: Inputs, k: nat) returns (ok: bool)
      requires id < |log|
      modifies this`log, this`dlq
      ensures (ok, View()) == ConsumeStep(codec, old(View()), id, x, k)
    {
      var disposition := Disposition(log[id].body, x.maxRetries);
      if disposition == None {
        return false;
      }
      if x.succeeds(id) {
        log := Mark(log, id, Handled, x.fates(k));
        if x.fates(k).Works? {
          return true;
        }
      }
      ok := true;
      if disposition.value {
        ok := MoveToDlq(id, x.details(id), x.fates(k + 1), x.fates(k + 2));
      }
    }

    /** `consume_with_retry`; `false` when it raised. */
    method ConsumeWithRetry(count: nat, x: Inputs) returns (ok: bool)
      requires cursor <= |log|
      modifies this
      ensures (ok, View()) == ConsumeCall(codec, old(View()), count, x)
    {
      var batch := Consume(count, x.fates(0));
      ok := x.fates(0).Works?;
      if ok {
        ok := ConsumeAll(batch, x);
      }
    }

    method ConsumeAll(batch: seq<Id>, x: Inputs) returns (ok: bool)
      requires Inside(batch, log)
      modifies this`log, this`dlq
      ensures (ok, View()) == ConsumeSteps(codec, old(View()), batch, x, |batch|)
    {
      ghost var was := View();
      ok := true;
      var i := 0;
      while ok && i < |batch|
        invariant i <= |batch| && |log| == |was.log|
        invariant ConsumeSteps(codec, was, batch, x, i) == (ok, View())
      {
        ok := ConsumeOne(batch[i], x, 3 * i + 3);
        i := i + 1;
      }
      if !ok { FailureEnds(codec, was, batch, x, i, |batch|); }
    }

    method Consume(count: nat, fate: Fate) returns (batch: seq<Id>)
      requires cursor <= |log|
      modifies this`cursor
      ensures batch == Batch(old(View()), count) && View() == Delivered(old(View()), count, fate)
    {
      var n := if |log| - cursor < count then |log| - cursor else count;
      batch := Range(cursor, n);
      if TakesEffect(fate) {
        cursor := cursor + n;
      }
    }
  }

  // ---------------------------------------------------------------------------------------
  // Calls are steps of the machine

  /** One agent and no other. */
  function Alone(b: Streams, a: Agent): World { World(b, [a]) }

  lemma MoveReaches(c: Codec, w: World, b: Streams, todo: seq<Id>, details: Details, publish: Fate, ack: Fate)
    requires todo != [] && todo[0] < |b.log| && Reaches(c, w, Alone(b, Moving(todo)))
    ensures var (ok, after) := MoveStep(c, b, todo[0], details, publish, ack);
            Reaches(c, w, Alone(after, if ok then Working(todo[1..]) else IDLE))
  {
    var (b1, a1) := Local(c, b, Moving(todo), WriteLetter(0, details, publish));
    OneStepFurther(c, w, Alone(b, Moving(todo)), WriteLetter(0, details, publish), Alone(b1, a1));
    if publish.Works? {
      var (b2, a2) := Local(c, b1, a1, Event.AckMoved(0, ack));
      OneStepFurther(c, w, Alone(b1, a1), Event.AckMoved(0, ack), Alone(b2, a2));
      if !ack.Works? { OneStepFurther(c, w, Alone(b2, a2), Crash(0), Alone(b2, IDLE)); }
    } else {
      OneStepFurther(c, w, Alone(b1, a1), Crash(0), Alone(b1, IDLE));
    }
  }

  lemma ConsumeStepReaches(c: Codec, w: World, b: Streams, todo: seq<Id>, x: Inputs, k: nat)
    requires todo != [] && todo[0] < |b.log| && Reaches(c, w, Alone(b, Working(todo)))
    ensures var (ok, after) := ConsumeStep(c, b, todo[0], x, k);
            Reaches(c, w, Alone(after, if ok then Working(todo[1..]) else IDLE))
  {
    var b1 := b;
    var disposition := Disposition(b.log[todo[0]].body, x.maxRetries);
    if disposition.Some? && x.succeeds(todo[0]) {
      b1 := b.(log := Mark(b.log, todo[0], Handled, x.fates(k)));
      OneStepFurther(c, w, Alone(b, Working(todo)), Handle(0, x.fates(k)),
                     Alone(b1, Working(if x.fates(k).Works? then todo[1..] else todo)));
    }
    if disposition == None || !(x.succeeds(todo[0]) && x.fates(k).Works?) {
      var a1 := Local(c, b1, Working(todo), Fail(0, Retrying(x.maxRetries))).1;
      OneStepFurther(c, w, Alone(b1, Working(todo)), Fail(0, Retrying(x.maxRetries)), Alone(b1, a1));
      if disposition == Some(true) {
        MoveReaches(c, w, b1, todo, x.details(todo[0]), x.fates(k + 1), x.fates(k + 2));
      }
    }
  }

  lemma {:induction false} ConsumeStepsReach(c: Codec, w: World, b: Streams, batch: seq<Id>, x: Inputs, i: nat)
    requires i <= |batch| && Inside(batch, b.log) && Reaches(c, w, Alone(b, Working(batch)))
    ensures var (ok, after) := ConsumeSteps(c, b, batch, x, i);
            Reaches(c, w, Alone(after, if ok then Working(batch[i..]) else IDLE))
  {
    if i == 0 {
      assert batch[0..] == batch;
    } else {
      ConsumeStepsReach(c, w, b, batch, x, i - 1);
      var (ok, before) := ConsumeSteps(c, b, batch, x, i - 1);
      if ok {
        assert batch[i - 1..][0] == batch[i - 1] && batch[i - 1..][1..] == batch[i..];
        ConsumeStepReaches(c, w, before, batch[i - 1..], x, 3 * i);
      }
    }
  }

  /** A call of `consume_with_retry` is a sequence of steps of the machine, so it keeps what
      every run keeps. */
  lemma ConsumeCallReaches(c: Codec, b: Streams, count: nat, x: Inputs)
    requires b.cursor <= |b.log|
    ensures Reaches(c, Alone(b, IDLE), Alone(ConsumeCall(c, b, count, x).1, IDLE))
  {
    var w, batch, delivered := Alone(b, IDLE), Batch(b, count), Delivered(b, count, x.fates(0));
    ReachesSelf(c, w);
    OneStepFurther(c, w, w, Deliver(0, Available(b, count), x.fates(0)),
                   Alone(delivered, if x.fates(0).Works? then Working(batch) else IDLE));
    if x.fates(0).Works? {
      ConsumeStepsReach(c, w, delivered, batch, x, |batch|);
      assert batch[|batch|..] == [];
    }
  }

  lemma ReprocessStepReaches(c: Codec, w: World, b: Streams, todo: seq<Id>, publish: Fate, delete: Fate)
    requires todo != [] && todo[0] < |b.dlq| && Reaches(c, w, Alone(b, Reprocessing(todo)))
    ensures var (ok, after) := ReprocessStep(c, b, todo[0], publish, delete);
            Reaches(c, w, Alone(after, if ok then Reprocessing(todo[1..]) else IDLE))
  {
    var (b1, a1) := Local(c, b, Reprocessing(todo), Republish(0, publish));
    OneStepFurther(c, w, Alone(b, Reprocessing(todo)), Republish(0, publish), Alone(b1, a1));
    if a1.Deleting? {
      var (b2, a2) := Local(c, b1, a1, Delete(0, delete));
      OneStepFurther(c, w, Alone(b1, a1), Delete(0, delete), Alone(b2, a2));
    }
  }

  lemma {:induction false} ReprocessStepsReach(c: Codec, w: World, b: Streams, letters: seq<Id>, fates: nat -> Fate, i: nat)
    requires i <= |letters| && Inside(letters, b.dlq) && Reaches(c, w, Alone(b, Reprocessing(letters)))
    ensures var (ok, after) := ReprocessSteps(c, b, letters, fates, i);
            Reaches(c, w, Alone(after, if ok then Reprocessing(letters[i..]) else IDLE))
  {
    if i == 0 {
      assert letters[0..] == letters;
    } else {
      ReprocessStepsReach(c, w, b, letters, fates, i - 1);
      var (ok, before) := ReprocessSteps(c, b, letters, fates, i - 1);
      if ok {
        assert letters[i - 1..][0] == letters[i - 1] && letters[i - 1..][1..] == letters[i..];
        ReprocessStepReaches(c, w, before, letters[i - 1..], fates(2 * i), fates(2 * i + 1));
      }
    }
  }

  /** ... and so is a call of `reprocess_dlq`. */
  lemma ReprocessCallReaches(c: Codec, b: Streams, count: nat, fates: nat -> Fate)
    ensures Reaches(c, Alone(b, IDLE), Alone(ReprocessCall(c, b, count, fates).1, IDLE))
  {
    var w, letters := Alone(b, IDLE), FirstLetters(b, count);
    ReachesSelf(c, w);
    OneStepFurther(c, w, w, Event.Snapshot(0, count), Alone(b, Reprocessing(letters)));
    ReprocessStepsReach(c, w, b, letters, fates, |letters|);
    var (ok, after) := ReprocessCall(c, b, count, fates);
    assert letters[|letters|..] == [];
    if ok { OneStepFurther(c, w, Alone(after, Reprocessing([])), Finish(0), Alone(after, IDLE)); }
  }
}
