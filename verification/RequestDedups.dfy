/** `shared/request_dedup.py`: deduplication by one atomic SET NX, followed by a GET when the
    key was taken. Any number of requests run these steps in any interleaving. */
module RequestDedups {
  import opened Wrappers
  import opened ExpiringStores
  import opened Deliveries
  import Decimal

  const PENDING := "pending"

  datatype Reply = Proceed | Duplicate(status: int)

  const IN_FLIGHT: int := 409

  /** What the GET of a taken key is turned into. `None` is the ValueError of `int`, which the
      code turns into "proceed". */
  function Interpret(existing: Option<string>): Option<Reply> {
    if existing == None || existing.value == PENDING then Some(Duplicate(IN_FLIGHT))
    else
      match Decimal.ParseInt(existing.value)
      case None => None
      case Some(n) => Some(Duplicate(n))
  }

  const PREFIX := "dedup:"

  /** `check_idempotency` when nobody writes between its two commands, issued at `t0` and `t1`:
      the answer and the store. Any Redis error turns into "proceed", even when the SET had taken
      effect. */
  function Checked(s: Store<string>, key: Option<string>, ttl: int, t0: Time, t1: Time, claim: Fate, readable: bool): (Reply, Store<string>) {
    if key == None || key.value == "" then (Proceed, s)
    else
      var k := PREFIX + key.value;
      var free := !Live(s, k, t0);
      var s' := if free && TakesEffect(claim) then SetEx(s, k, PENDING, ttl, t0) else s;
      if free || !claim.Works? || !readable then (Proceed, s')
      else (match Interpret(Get(s', k, t1)) case None => Proceed case Some(x) => x, s')
  }

  method CheckIdempotency(redis: Redis<string>, key: Option<string>, ttl: int, t0: Time, t1: Time, claim: Fate, readable: bool) returns (r: Reply)
    modifies redis
    ensures (r, redis.cells) == Checked(old(redis.cells), key, ttl, t0, t1, claim, readable)
  {
    if key == None || key.value == "" {
      return Proceed;
    }
    var fullKey := PREFIX + key.value;
    var wasSet := false;
    if TakesEffect(claim) {
      wasSet := redis.SetIfAbsent(fullKey, PENDING, ttl, t0);
    }
    if claim.Works? && !wasSet && readable {
      var existing := Get(redis.cells, fullKey, t1);
      var interpreted := Interpret(existing);
      return if interpreted == None then Proceed else interpreted.value;
    }
    return Proceed;
  }

  /** Errors are swallowed. */
  method StoreResponseStatus(redis: Redis<string>, key: Option<string>, status: int, ttl: int, now: Time, fate: Fate)
    modifies redis
    ensures redis.cells == if key == None || key.value == "" || !TakesEffect(fate) then old(redis.cells)
                           else SetEx(old(redis.cells), PREFIX + key.value, Decimal.Str(status), ttl, now)
  {
    if key == None || key.value == "" {
      return;
    }
    if TakesEffect(fate) {
      redis.Set(PREFIX + key.value, Decimal.Str(status), ttl, now);
    }
  }

  // ---------------------------------------------------------------------------------------
  // Interleavings

  type RequestId = nat

  /** `waiting` are the requests whose SET NX found the key taken, before their GET. */
  datatype World = World(store: Store<string>, clock: Time, waiting: map<RequestId, string>)

  datatype Event =
    | Claim(id: RequestId, key: string, ttl: int, now: Time)
    | ReadBack(id: RequestId, now: Time)
    | StoreStatus(key: string, status: int, ttl: int, now: Time)

  predicate Enabled(w: World, e: Event) {
    w.clock <= e.now &&
    match e
    case Claim(id, _, ttl, _) => id !in w.waiting && ttl > 0
    case ReadBack(id, _) => id in w.waiting
    case StoreStatus(_, _, ttl, _) => ttl > 0
  }

  function After(w: World, e: Event): World
    requires Enabled(w, e)
  {
    match e
    case Claim(id, k, ttl, now) =>
      var (store, ok) := SetNx(w.store, k, PENDING, ttl, now);
      World(store, now, if ok then w.waiting else w.waiting[id := k])
    case ReadBack(id, now) => World(w.store, now, w.waiting - {id})
    case StoreStatus(k, status, ttl, now) => World(SetEx(w.store, k, Decimal.Str(status), ttl, now), now, w.waiting)
  }

  /** The answer that a request gets at an event, if it gets one there. */
  function Answer(w: World, e: Event): Option<Reply>
    requires Enabled(w, e)
  {
    match e
    case Claim(_, k, _, now) => if Live(w.store, k, now) then None else Some(Proceed)
    case ReadBack(id, now) =>
      (match Interpret(Get(w.store, w.waiting[id], now))
       case None => Some(Proceed)
       case Some(r) => Some(r))
    case StoreStatus(_, _, _, _) => None
  }

  /** A check that meets no error is a claim, and a read-back when the key was taken. */
  lemma CheckIsClaimThenReadBack(w: World, id: RequestId, key: string, ttl: int, t0: Time, t1: Time)
    requires key != "" && ttl > 0 && w.clock <= t0 <= t1 && id !in w.waiting
    ensures var (r, s) := Checked(w.store, Some(key), ttl, t0, t1, Works, true);
            var claim := Claim(id, PREFIX + key, ttl, t0);
            var w1 := After(w, claim);
            if Answer(w, claim).Some? then
              Answer(w, claim) == Some(r) && w1 == World(s, t0, w.waiting)
            else
              && Answer(w1, ReadBack(id, t1)) == Some(r)
              && After(w1, ReadBack(id, t1)) == World(s, t1, w.waiting)
  {
    assert w.waiting[id := PREFIX + key] - {id} == w.waiting;
  }

  /** `ws[i]` is the world before `es[i]`; nobody else writes these keys. */
  ghost predicate IsRun(ws: seq<World>, es: seq<Event>) {
    |ws| == |es| + 1 && ws[0].store == map[] && ws[0].waiting == map[] &&
    forall i | 0 <= i < |es| :: Enabled(ws[i], es[i]) && ws[i + 1] == After(ws[i], es[i])
  }

  /** Event `i` writes key `k`. */
  ghost predicate Writes(ws: seq<World>, es: seq<Event>, k: string, i: nat)
    requires IsRun(ws, es) && i < |es|
  {
    match es[i]
    case Claim(_, key, _, now) => key == k && !Live(ws[i].store, k, now)
    case ReadBack(_, _) => false
    case StoreStatus(key, _, _, _) => key == k
  }

  ghost predicate LastWrite(ws: seq<World>, es: seq<Event>, k: string, i: nat, n: nat)
    requires IsRun(ws, es)
  {
    i < n < |ws| && Writes(ws, es, k, i) && forall j | i < j < n :: !Writes(ws, es, k, j)
  }

  lemma LastWriteIsUnique(ws: seq<World>, es: seq<Event>, k: string, i: nat, j: nat, n: nat)
    requires IsRun(ws, es) && LastWrite(ws, es, k, i, n) && LastWrite(ws, es, k, j, n)
    ensures i == j
  {
  }

  function Written(e: Event): string
    requires !e.ReadBack?
  {
    if e.Claim? then PENDING else Decimal.Str(e.status)
  }

  /** The store is what the history says: a key holds what its last write put there, and is
      absent when it was never written. */
  lemma {:induction false} StoreTellsLastWrite(ws: seq<World>, es: seq<Event>, k: string, n: nat)
    requires IsRun(ws, es) && n < |ws|
    ensures k in ws[n].store ==>
              exists i: nat :: LastWrite(ws, es, k, i, n) && ws[n].store[k] == Cell(Written(es[i]), es[i].now + es[i].ttl)
    ensures k !in ws[n].store ==> forall i: nat | i < n :: !Writes(ws, es, k, i)
  {
    if n > 0 {
      var m := n - 1;
      StoreTellsLastWrite(ws, es, k, m);
      assert ws[m + 1] == After(ws[m], es[m]);
      if Writes(ws, es, k, m) {
        assert LastWrite(ws, es, k, m, n);
      } else {
        assert k in ws[n].store <==> k in ws[m].store;
        if k in ws[m].store {
          assert ws[n].store[k] == ws[m].store[k];
          var i: nat :| LastWrite(ws, es, k, i, m) && ws[m].store[k] == Cell(Written(es[i]), es[i].now + es[i].ttl);
          assert LastWrite(ws, es, k, i, n);
        }
      }
    }
  }

  lemma {:induction false} TimeGrows(ws: seq<World>, es: seq<Event>, i: nat, j: nat)
    requires IsRun(ws, es) && i <= j < |es|
    ensures es[i].now <= es[j].now
  {
    if i < j {
      TimeGrows(ws, es, i, j - 1);
      assert ws[j - 1 + 1] == After(ws[j - 1], es[j - 1]) && Enabled(ws[j], es[j]);
    }
  }

  /** Every value ever stored is the marker or a printed status, so no read-back falls through
      to "proceed". */
  lemma ReadBackNeverProceeds(ws: seq<World>, es: seq<Event>, n: nat)
    requires IsRun(ws, es) && n < |es| && es[n].ReadBack?
    ensures Answer(ws[n], es[n]) != Some(Proceed)
  {
    var k := ws[n].waiting[es[n].id];
    StoreTellsLastWrite(ws, es, k, n);
    if Live(ws[n].store, k, es[n].now) {
      var i: nat :| LastWrite(ws, es, k, i, n) && ws[n].store[k] == Cell(Written(es[i]), es[i].now + es[i].ttl);
      if es[i].StoreStatus? { Decimal.ParseStr(es[i].status); }
    }
  }

  /** The key for which a request is told to proceed. */
  ghost predicate ToldToProceed(ws: seq<World>, es: seq<Event>, k: string, i: nat)
    requires IsRun(ws, es)
  {
    i < |es| && Answer(ws[i], es[i]) == Some(Proceed)
    && k == if es[i].Claim? then es[i].key else ws[i].waiting[es[i].id]
  }

  /** Two requests with the same key that are told to proceed are at least `ttl` apart, when
      every write of the key uses a TTL of at least `ttl`, whatever the interleaving. */
  lemma ProceedsAreApart(ws: seq<World>, es: seq<Event>, k: string, ttl: int, i: nat, j: nat)
    requires IsRun(ws, es) && i < j
    requires ToldToProceed(ws, es, k, i) && ToldToProceed(ws, es, k, j)
    requires forall m | 0 <= m < |es| && Writes(ws, es, k, m) :: es[m].ttl >= ttl
    ensures es[j].now - es[i].now >= ttl
  {
    if es[i].ReadBack? { ReadBackNeverProceeds(ws, es, i); }
    if es[j].ReadBack? { ReadBackNeverProceeds(ws, es, j); }
    assert Writes(ws, es, k, i);
    StoreTellsLastWrite(ws, es, k, j);
    var m: nat :| LastWrite(ws, es, k, m, j) && ws[j].store[k] == Cell(Written(es[m]), es[m].now + es[m].ttl);
    TimeGrows(ws, es, i, m);
  }

  /** A request that finds its key free proceeds: exactly when no write of the key is still
      live. */
  lemma ProceedsExactlyWhenFree(ws: seq<World>, es: seq<Event>, n: nat)
    requires IsRun(ws, es) && n < |es| && es[n].Claim?
    ensures Answer(ws[n], es[n]) == Some(Proceed) <==>
            forall i: nat | LastWrite(ws, es, es[n].key, i, n) :: es[n].now >= es[i].now + es[i].ttl
  {
    var k := es[n].key;
    StoreTellsLastWrite(ws, es, k, n);
    if k in ws[n].store {
      var m: nat :| LastWrite(ws, es, k, m, n) && ws[n].store[k] == Cell(Written(es[m]), es[m].now + es[m].ttl);
      forall i: nat | LastWrite(ws, es, k, i, n) ensures i == m {
        LastWriteIsUnique(ws, es, k, i, m, n);
      }
    }
  }

  /** A status other than the in-flight 409 is the one stored last for that key, and it has not
      expired. */
  lemma StatusWasStored(ws: seq<World>, es: seq<Event>, n: nat, status: int)
    requires IsRun(ws, es) && n < |es| && es[n].ReadBack?
    requires Answer(ws[n], es[n]) == Some(Duplicate(status)) && status != IN_FLIGHT
    ensures exists i: nat :: LastWrite(ws, es, ws[n].waiting[es[n].id], i, n)
              && es[i].StoreStatus? && es[i].status == status && es[n].now < es[i].now + es[i].ttl
  {
    var k := ws[n].waiting[es[n].id];
    StoreTellsLastWrite(ws, es, k, n);
    var i: nat :| LastWrite(ws, es, k, i, n) && ws[n].store[k] == Cell(Written(es[i]), es[i].now + es[i].ttl);
    if es[i].StoreStatus? {
      Decimal.ParseStr(es[i].status);
    }
    assert es[i].StoreStatus? && es[i].status == status;
  }

  /** A read-back answers with the status stored last for its key, or with 409 when the last write
      was the mark of a request in flight or has expired meanwhile. */
  lemma ReadBackTells(ws: seq<World>, es: seq<Event>, n: nat, i: nat)
    requires IsRun(ws, es) && n < |es| && es[n].ReadBack? && LastWrite(ws, es, ws[n].waiting[es[n].id], i, n)
    ensures Answer(ws[n], es[n]) ==
            Some(Duplicate(if es[i].StoreStatus? && es[n].now < es[i].now + es[i].ttl then es[i].status else 409))
  {
    var k := ws[n].waiting[es[n].id];
    StoreTellsLastWrite(ws, es, k, n);
    assert Writes(ws, es, k, i);
    var j: nat :| LastWrite(ws, es, k, j, n) && ws[n].store[k] == Cell(Written(es[j]), es[j].now + es[j].ttl);
    LastWriteIsUnique(ws, es, k, i, j, n);
    if es[i].StoreStatus? { PrintedStatus(es[i].status); }
  }

  lemma PrintedStatus(n: int)
    ensures Interpret(Some(Decimal.Str(n))) == Some(Duplicate(n))
  {
    Decimal.ParseStr(n);
    assert Decimal.Str(n) != PENDING by {
      assert PENDING[0] == 'p';
      assert Decimal.Str(n)[0] in Decimal.Str(n);
    }
  }

  /** A repetition of a request whose status was stored answers with that status. */
  lemma RepetitionGetsStatus(s: Store<string>, key: string, status: int, ttl: int, stored: Time, ttl': int, t0: Time, t1: Time)
    requires key != "" && stored <= t0 <= t1 < stored + ttl
    ensures Checked(SetEx(s, PREFIX + key, Decimal.Str(status), ttl, stored), Some(key), ttl', t0, t1, Works, true).0 == Duplicate(status)
  {
    PrintedStatus(status);
  }

  /** A check answers "proceed" exactly if there is no key, the key is free, Redis fails at one of
      the commands, or what is stored is neither the mark of a pending request nor a number. */
  lemma ProceedsExactlyWhen(s: Store<string>, key: Option<string>, ttl: int, t0: Time, t1: Time, claim: Fate, readable: bool)
    ensures Checked(s, key, ttl, t0, t1, claim, readable).0 == Proceed <==>
            key == None || key.value == "" || !claim.Works? || !readable || (var k := "dedup:" + key.value;
              !Live(s, k, t0) || (Live(s, k, t1) && s[k].value != "pending" && Decimal.ParseInt(s[k].value) == None))
  {
  }
}
