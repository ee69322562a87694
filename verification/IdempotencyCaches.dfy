/** `shared/idempotency.py`: the middleware that replays the cached response of an earlier
    request with the same Idempotency-Key. */
module IdempotencyCaches {
  import opened Wrappers
  import opened ExpiringStores
  import Utf8

  type Bytes = Utf8.Bytes

  /** `sha256(...).hexdigest()`. */
  type Digest = Bytes -> string

  datatype Request = Request(verb: string, key: Option<string>, body: Bytes)

  datatype Response = Response(status: int, body: Bytes, mediaType: Option<string>)

  /** What a Redis key holds: an entry, which `json.dumps` and `json.loads` preserve, or text that
      is not JSON. */
  datatype Cached = Entry(status: int, body: string, bodyHash: string, mediaType: string) | Corrupt

  /** What happens around the request: whether Redis answers the ping, the GET and the SETEX,
      when the GET and the SETEX take effect, and what the handler returns if it is run. */
  datatype Visit = Visit(up: bool, readable: bool, writable: bool, readAt: Time, writeAt: Time, handler: Response)

  /** The handler's own response, a cached one, or the 422 for a key that was used with another
      body. */
  datatype Reply = Ran(response: Response) | Replayed(response: Response) | Misuse

  const JSON := "application/json"
  const PREFIX := "idempotency:"

  predicate Mutating(verb: string) { verb == "POST" || verb == "PUT" || verb == "PATCH" }

  predicate Applies(r: Request) { Mutating(r.verb) && r.key != None && r.key.value != "" }

  function KeyOf(r: Request): string
    requires Applies(r)
  {
    PREFIX + r.key.value
  }

  function MediaTypeOf(r: Response): string {
    if r.mediaType == None || r.mediaType.value == "" then JSON else r.mediaType.value
  }

  function EntryOf(x: Digest, body: Bytes, r: Response): Cached {
    Entry(r.status, Utf8.Decode(r.body), x(body), MediaTypeOf(r))
  }

  function Replay(c: Cached): Response
    requires c.Entry?
  {
    Response(c.status, Utf8.Encode(c.body), Some(c.mediaType))
  }

  class IdempotencyMiddleware {
    const digest: Digest
    const ttl: int

    constructor (digest: Digest, ttl: int)
      ensures this.digest == digest && this.ttl == ttl
    {
      this.digest := digest;
      this.ttl := ttl;
    }

    method Dispatch(redis: Redis<Cached>, r: Request, v: Visit) returns (reply: Reply)
      modifies redis
      ensures (reply, redis.cells) == Dispatched(digest, ttl, old(redis.cells), r, v)
    {
      if !Mutating(r.verb) {
        return Ran(v.handler);
      }
      if r.key == None || r.key.value == "" {
        return Ran(v.handler);
      }
      var bodyHash := digest(r.body);
      if !v.up {
        return Ran(v.handler);
      }
      var redisKey := PREFIX + r.key.value;
      if !v.readable {
        return Ran(v.handler);
      }
      var cached := Get(redis.cells, redisKey, v.readAt);
      if cached != None {
        var entry := cached.value;
        if entry.Corrupt? {
          redis.Remove(redisKey);
          reply := ProcessAndCache(redis, redisKey, bodyHash, v);
          return;
        }
        if entry.bodyHash != bodyHash {
          return Misuse;
        }
        return Replayed(Response(entry.status, Utf8.Encode(entry.body), Some(entry.mediaType)));
      }
      reply := ProcessAndCache(redis, redisKey, bodyHash, v);
    }

    method ProcessAndCache(redis: Redis<Cached>, redisKey: string, bodyHash: string, v: Visit) returns (reply: Reply)
      modifies redis
      ensures reply == Ran(v.handler)
      ensures redis.cells == if v.writable then SetEx(old(redis.cells), redisKey, Entry(v.handler.status, Utf8.Decode(v.handler.body), bodyHash, MediaTypeOf(v.handler)), ttl, v.writeAt)
                             else old(redis.cells)
    {
      var entry := Entry(v.handler.status, Utf8.Decode(v.handler.body), bodyHash, MediaTypeOf(v.handler));
      if v.writable {
        redis.Set(redisKey, entry, ttl, v.writeAt);
      }
      return Ran(v.handler);
    }
  }

  /** One request, from its GET to its SETEX, with nobody else in between. */
  function Dispatched(x: Digest, ttl: int, s: Store<Cached>, r: Request, v: Visit): (Reply, Store<Cached>) {
    if !Applies(r) || !v.up || !v.readable then (Ran(v.handler), s)
    else
      var k := KeyOf(r);
      var cached := Get(s, k, v.readAt);
      if cached != None && cached.value.Entry? then
        (if cached.value.bodyHash == x(r.body) then Replayed(Replay(cached.value)) else Misuse, s)
      else
        var s' := if cached != None then Delete(s, k) else s;
        (Ran(v.handler), if v.writable then SetEx(s', k, EntryOf(x, r.body, v.handler), ttl, v.writeAt) else s')
  }

  // ---------------------------------------------------------------------------------------
  // Requests that do not overlap

  datatype Exchange = Exchange(request: Request, visit: Visit)

  /** Requests one after the other: each starts when the previous one is done. */
  ghost predicate OneAfterTheOther(xs: seq<Exchange>) {
    && (forall i | 0 <= i < |xs| :: xs[i].visit.readAt <= xs[i].visit.writeAt)
    && (forall i | 0 < i < |xs| :: xs[i - 1].visit.writeAt <= xs[i].visit.readAt)
  }

  ghost predicate RedisUp(xs: seq<Exchange>) {
    forall i | 0 <= i < |xs| :: xs[i].visit.up && xs[i].visit.readable && xs[i].visit.writable
  }

  function StoreAfter(x: Digest, ttl: int, xs: seq<Exchange>): Store<Cached> {
    if xs == [] then map[]
    else
      var last := xs[|xs| - 1];
      Dispatched(x, ttl, StoreAfter(x, ttl, xs[..|xs| - 1]), last.request, last.visit).1
  }

  function ReplyTo(x: Digest, ttl: int, xs: seq<Exchange>, i: nat): Reply
    requires i < |xs|
  {
    Dispatched(x, ttl, StoreAfter(x, ttl, xs[..i]), xs[i].request, xs[i].visit).0
  }

  /** Request `i` ran the handler for key `k` and cached the response. */
  ghost predicate RanFor(x: Digest, ttl: int, xs: seq<Exchange>, k: string, i: nat) {
    i < |xs| && Applies(xs[i].request) && KeyOf(xs[i].request) == k && ReplyTo(x, ttl, xs, i).Ran?
  }

  /** Request `i` ran the handler for key `k` last before `n`. */
  ghost predicate LastRun(x: Digest, ttl: int, xs: seq<Exchange>, k: string, i: nat, n: nat) {
    i < n <= |xs| && RanFor(x, ttl, xs, k, i) && forall j | i < j < n :: !RanFor(x, ttl, xs, k, j)
  }

  /** What the store holds for a key is what its last run among the first `n` exchanges wrote. */
  ghost predicate TellsLastRun(x: Digest, ttl: int, xs: seq<Exchange>, k: string, n: nat, s: Store<Cached>) {
    n <= |xs| &&
    if k in s then
      exists i: nat :: LastRun(x, ttl, xs, k, i, n) &&
        s[k] == Cell(EntryOf(x, xs[i].request.body, xs[i].visit.handler), xs[i].visit.writeAt + ttl)
    else forall i: nat | i < n :: !RanFor(x, ttl, xs, k, i)
  }

  lemma OneExchangeMore(x: Digest, ttl: int, xs: seq<Exchange>, k: string, n: nat, s: Store<Cached>, s': Store<Cached>)
    requires n < |xs| && TellsLastRun(x, ttl, xs, k, n, s)
    requires if RanFor(x, ttl, xs, k, n)
             then k in s' && s'[k] == Cell(EntryOf(x, xs[n].request.body, xs[n].visit.handler), xs[n].visit.writeAt + ttl)
             else (k in s' <==> k in s) && (k in s ==> s'[k] == s[k])
    ensures TellsLastRun(x, ttl, xs, k, n + 1, s')
  {
    if RanFor(x, ttl, xs, k, n) {
      assert LastRun(x, ttl, xs, k, n, n + 1);
    } else if k in s {
      var i: nat :| LastRun(x, ttl, xs, k, i, n) &&
        s[k] == Cell(EntryOf(x, xs[i].request.body, xs[i].visit.handler), xs[i].visit.writeAt + ttl);
      assert LastRun(x, ttl, xs, k, i, n + 1);
    }
  }

  lemma {:induction false} StoreTellsLastRun(x: Digest, ttl: int, xs: seq<Exchange>, k: string, n: nat)
    requires RedisUp(xs) && n <= |xs|
    ensures TellsLastRun(x, ttl, xs, k, n, StoreAfter(x, ttl, xs[..n]))
  {
    if n > 0 {
      var m := n - 1;
      StoreTellsLastRun(x, ttl, xs, k, m);
      assert xs[..n][..m] == xs[..m];
      NeverCorrupt(x, ttl, xs, m);
      OneExchangeMore(x, ttl, xs, k, m, StoreAfter(x, ttl, xs[..m]), StoreAfter(x, ttl, xs[..n]));
    }
  }

  lemma {:induction false} NeverCorrupt(x: Digest, ttl: int, xs: seq<Exchange>, n: nat)
    requires n <= |xs|
    ensures forall k | k in StoreAfter(x, ttl, xs[..n]) :: StoreAfter(x, ttl, xs[..n])[k].value.Entry?
  {
    if n > 0 {
      NeverCorrupt(x, ttl, xs, n - 1);
      assert xs[..n][..n - 1] == xs[..n - 1];
    }
  }

  lemma {:induction false} TimeGrows(xs: seq<Exchange>, i: nat, j: nat)
    requires OneAfterTheOther(xs) && i <= j < |xs|
    ensures i < j ==> xs[i].visit.writeAt <= xs[j].visit.readAt
    ensures xs[i].visit.writeAt <= xs[j].visit.writeAt
  {
    if i < j { TimeGrows(xs, i, j - 1); }
  }

  /** The handler runs exactly when no earlier run for the key was cached less than a TTL ago;
      so it runs at most once per TTL. */
  lemma RunsExactlyWhenExpired(x: Digest, ttl: int, xs: seq<Exchange>, n: nat)
    requires RedisUp(xs) && OneAfterTheOther(xs) && n < |xs| && Applies(xs[n].request)
    ensures ReplyTo(x, ttl, xs, n).Ran? <==>
            forall i | 0 <= i < n && RanFor(x, ttl, xs, KeyOf(xs[n].request), i) :: xs[n].visit.readAt - xs[i].visit.writeAt >= ttl
  {
    var k := KeyOf(xs[n].request);
    var s := StoreAfter(x, ttl, xs[..n]);
    StoreTellsLastRun(x, ttl, xs, k, n);
    NeverCorrupt(x, ttl, xs, n);
    if k in s {
      var m: nat :| LastRun(x, ttl, xs, k, m, n) &&
        s[k] == Cell(EntryOf(x, xs[m].request.body, xs[m].visit.handler), xs[m].visit.writeAt + ttl);
      forall i | 0 <= i < n && RanFor(x, ttl, xs, k, i) ensures xs[i].visit.writeAt <= xs[m].visit.writeAt {
        assert i <= m;
        TimeGrows(xs, i, m);
      }
    }
  }

  /** Within a TTL of a run, a request with the same key is answered without running the
      handler: from the cache when its body has the same digest, with 422 otherwise. */
  lemma AnsweredFromCache(x: Digest, ttl: int, xs: seq<Exchange>, i: nat, n: nat)
    requires RedisUp(xs) && OneAfterTheOther(xs) && i < n < |xs| && Applies(xs[n].request)
    requires RanFor(x, ttl, xs, KeyOf(xs[n].request), i)
    requires xs[n].visit.readAt < xs[i].visit.writeAt + ttl
    ensures ReplyTo(x, ttl, xs, n) ==
            if x(xs[n].request.body) == x(xs[i].request.body) then
              Replayed(Replay(EntryOf(x, xs[i].request.body, xs[i].visit.handler)))
            else Misuse
  {
    var k := KeyOf(xs[n].request);
    var s := StoreAfter(x, ttl, xs[..n]);
    StoreTellsLastRun(x, ttl, xs, k, n);
    var m: nat :| LastRun(x, ttl, xs, k, m, n) &&
      s[k] == Cell(EntryOf(x, xs[m].request.body, xs[m].visit.handler), xs[m].visit.writeAt + ttl);
    NothingRanSince(x, ttl, xs, k, i, m, n);
    LiveEntryAnswers(x, ttl, s, xs[n].request, xs[n].visit);
  }

  lemma LiveEntryAnswers(x: Digest, ttl: int, s: Store<Cached>, r: Request, v: Visit)
    requires Applies(r) && v.up && v.readable && Live(s, KeyOf(r), v.readAt) && s[KeyOf(r)].value.Entry?
    ensures var c := s[KeyOf(r)].value;
            Dispatched(x, ttl, s, r, v).0 == if c.bodyHash == x(r.body) then Replayed(Replay(c)) else Misuse
  {
  }

  lemma NothingRanSince(x: Digest, ttl: int, xs: seq<Exchange>, k: string, i: nat, m: nat, n: nat)
    requires RedisUp(xs) && OneAfterTheOther(xs) && n < |xs|
    requires i < n && RanFor(x, ttl, xs, k, i) && LastRun(x, ttl, xs, k, m, n)
    requires xs[n].visit.readAt < xs[i].visit.writeAt + ttl
    ensures i == m
  {
    assert i <= m;
    TimeGrows(xs, m, n);
    if i < m {
      RunsExactlyWhenExpired(x, ttl, xs, m);
    }
  }

  /** The replay has the first response's status; it has the same body exactly when that body is
      well-formed UTF-8, and the same media type exactly when the first response names one. */
  lemma ReplayFidelity(x: Digest, body: Bytes, r: Response)
    ensures var again := Replay(EntryOf(x, body, r));
            && again.status == r.status
            && (again.body == r.body <==> Utf8.IsUtf8(r.body))
            && (again.mediaType == r.mediaType <==> r.mediaType != None && r.mediaType.value != "")
            && (again.mediaType != r.mediaType ==> again.mediaType == Some("application/json"))
  {
    Utf8.DecodeThenEncode(r.body);
    if r.mediaType != None && r.mediaType.value == "" {
      assert |MediaTypeOf(r)| == |JSON| && |JSON| > 0;
    }
  }

  // ---------------------------------------------------------------------------------------
  // When the cache is not involved

  /** Two requests share an entry exactly if they have the same Idempotency-Key. */
  lemma KeysTellRequestsApart(r: Request, q: Request)
    requires Applies(r) && Applies(q)
    ensures KeyOf(r) == KeyOf(q) <==> r.key == q.key
  {
    assert KeyOf(r)[|PREFIX|..] == r.key.value && KeyOf(q)[|PREFIX|..] == q.key.value;
  }

  /** A request that is not POST, PUT or PATCH, one without a key, and any request while Redis does
      not answer runs its handler and leaves the store alone; over an empty store every other one
      is cached under its key. */
  lemma CachedExactlyWhen(x: Digest, ttl: int, r: Request, v: Visit)
    requires v.writable
    ensures var (reply, s) := Dispatched(x, ttl, map[], r, v);
            var cached := (r.verb == "POST" || r.verb == "PUT" || r.verb == "PATCH") && r.key != None && r.key.value != "" && v.up && v.readable;
            && reply == Ran(v.handler)
            && (cached ==> s.Keys == {PREFIX + r.key.value} && s[PREFIX + r.key.value].expiry == v.writeAt + ttl)
            && (!cached ==> s == map[])
  {
  }

  /** Text that is not an entry is deleted and the request runs as a first one. */
  lemma CorruptEntryIsReplaced(x: Digest, ttl: int, s: Store<Cached>, r: Request, v: Visit)
    requires Applies(r) && v.up && v.readable && Live(s, KeyOf(r), v.readAt) && s[KeyOf(r)].value.Corrupt?
    ensures var (reply, s') := Dispatched(x, ttl, s, r, v);
            && reply == Ran(v.handler)
            && s' - {KeyOf(r)} == s - {KeyOf(r)}
            && (KeyOf(r) in s' <==> v.writable)
            && (v.writable ==> s'[KeyOf(r)] == Cell(EntryOf(x, r.body, v.handler), v.writeAt + ttl))
  {
  }
}
