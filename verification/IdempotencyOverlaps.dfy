/** Requests with one Idempotency-Key that overlap in the middleware of `shared/idempotency.py`:
    any number of handlers run between the GET and the SETEX of their requests. This is the
    check-then-set protocol, whose bound therefore holds for them. */
module IdempotencyOverlaps {
  import opened Wrappers
  import opened ExpiringStores
  import opened IdempotencyCaches
  import Utf8
  import CheckThenSets

  datatype Config = Config(tasks: nat, ttl: int, digest: Digest)

  /** A request whose handler is running. */
  datatype Running = Running(key: string, body: Bytes)

  datatype World = World(store: Store<Cached>, clock: Time, running: map<nat, Running>)

  /** The GET of a request, its SETEX after the handler returned, or its end without a SETEX
      because the handler or Redis failed. */
  datatype Event =
    | Arrive(task: nat, request: Request, now: Time)
    | Finish(task: nat, handler: Response, now: Time)
    | GiveUp(task: nat, now: Time)

  predicate Enabled(c: Config, w: World, e: Event) {
    && w.clock <= e.now && e.task < c.tasks
    && (e.Arrive? <==> e.task !in w.running)
    && (e.Arrive? ==> Applies(e.request))
  }

  /** The answer that an arriving request gets from the cache, if it gets one. */
  function Answer(x: Digest, s: Store<Cached>, r: Request, now: Time): Option<Reply>
    requires Applies(r)
  {
    var cached := Get(s, KeyOf(r), now);
    if cached == None || cached.value.Corrupt? then None
    else Some(if cached.value.bodyHash == x(r.body) then Replayed(Replay(cached.value)) else Misuse)
  }

  function After(c: Config, w: World, e: Event): World
    requires Enabled(c, w, e)
  {
    match e
    case Arrive(t, r, now) =>
      if Answer(c.digest, w.store, r, now).Some? then w.(clock := now)
      else World(if Live(w.store, KeyOf(r), now) then Delete(w.store, KeyOf(r)) else w.store, now, w.running[t := Running(KeyOf(r), r.body)])
    case Finish(t, h, now) =>
      var r := w.running[t];
      World(SetEx(w.store, r.key, Entry(h.status, Utf8.Decode(h.body), c.digest(r.body), MediaTypeOf(h)), c.ttl, now), now, w.running - {t})
    case GiveUp(t, now) => World(w.store, now, w.running - {t})
  }

  /** A request with nobody in between is its GET followed by its SETEX, or by nothing when the
      write fails. */
  lemma DispatchIsTwoSteps(c: Config, s: Store<Cached>, r: Request, v: Visit)
    requires Applies(r) && v.up && v.readable && v.readAt <= v.writeAt && c.tasks >= 1
    ensures var (reply, s') := Dispatched(c.digest, c.ttl, s, r, v);
            var answer := Answer(c.digest, s, r, v.readAt);
            var w := After(c, World(s, v.readAt, map[]), Arrive(0, r, v.readAt));
            if answer.Some? then reply == answer.value && s' == w.store == s && w.running == map[]
            else
              && reply == Ran(v.handler) && 0 in w.running
              && s' == After(c, w, if v.writable then Finish(0, v.handler, v.writeAt) else GiveUp(0, v.writeAt)).store
  {
  }

  ghost predicate IsRun(c: Config, ws: seq<World>, es: seq<Event>) {
    && |ws| == |es| + 1 && ws[0].store == map[] && ws[0].running == map[]
    && forall i | 0 <= i < |es| :: Enabled(c, ws[i], es[i]) && ws[i + 1] == After(c, ws[i], es[i])
  }

  /** The event caches the response of a handler run for key `k`. */
  predicate Caches(w: World, e: Event, k: string) {
    e.Finish? && e.task in w.running && w.running[e.task].key == k
  }

  /** The runs for `k` that events `i..n` cache before `limit`. */
  ghost function CountRuns(ws: seq<World>, es: seq<Event>, k: string, limit: Time, i: nat, n: nat): nat
    requires i <= n <= |es| < |ws|
    decreases n - i
  {
    if i == n then 0
    else (if Caches(ws[i], es[i], k) && es[i].now < limit then 1 else 0) + CountRuns(ws, es, k, limit, i + 1, n)
  }

  // What the check-then-set protocol sees of this

  function ProtocolWorld(w: World): CheckThenSets.World {
    CheckThenSets.World(CheckThenSets.Expiries(w.store), w.clock, map t | t in w.running :: w.running[t].key)
  }

  function ProtocolEvent(e: Event): CheckThenSets.Event
    requires e.Arrive? ==> Applies(e.request)
  {
    match e
    case Arrive(t, r, now) => CheckThenSets.Check(t, KeyOf(r), now)
    case Finish(t, _, now) => CheckThenSets.Write(t, now)
    case GiveUp(t, now) => CheckThenSets.Abandon(t, now)
  }

  predicate NoneCorrupt(s: Store<Cached>) { forall k | k in s :: s[k].value.Entry? }

  lemma StepKeepsEntries(c: Config, w: World, e: Event)
    requires Enabled(c, w, e) && NoneCorrupt(w.store)
    ensures NoneCorrupt(After(c, w, e).store)
  {
  }

  lemma StepFollowsProtocol(c: Config, w: World, e: Event)
    requires Enabled(c, w, e) && NoneCorrupt(w.store)
    ensures var p := CheckThenSets.Config(c.tasks, c.ttl);
            && CheckThenSets.Enabled(p, ProtocolWorld(w), ProtocolEvent(e))
            && ProtocolWorld(After(c, w, e)) == CheckThenSets.After(p, ProtocolWorld(w), ProtocolEvent(e))
  {
    var p, pw, w' := CheckThenSets.Config(c.tasks, c.ttl), ProtocolWorld(w), After(c, w, e);
    var pw' := CheckThenSets.After(p, pw, ProtocolEvent(e));
    assert ProtocolWorld(w').expiry == pw'.expiry;
    assert ProtocolWorld(w').pending == pw'.pending;
  }

  /** The same run as the check-then-set protocol sees it. */
  ghost predicate SeenAs(ws: seq<World>, es: seq<Event>, pws: seq<CheckThenSets.World>, pes: seq<CheckThenSets.Event>) {
    && |pws| == |ws| && |pes| == |es| < |ws|
    && (forall i | 0 <= i < |ws| :: pws[i] == ProtocolWorld(ws[i]))
    && (forall i | 0 <= i < |es| :: (es[i].Arrive? ==> Applies(es[i].request)) && pes[i] == ProtocolEvent(es[i]))
  }

  lemma {:induction false} NeverCorrupted(c: Config, ws: seq<World>, es: seq<Event>, n: nat)
    requires IsRun(c, ws, es) && n < |ws|
    ensures NoneCorrupt(ws[n].store)
  {
    if n > 0 {
      NeverCorrupted(c, ws, es, n - 1);
      assert ws[n - 1 + 1] == After(c, ws[n - 1], es[n - 1]);
      StepKeepsEntries(c, ws[n - 1], es[n - 1]);
    }
  }

  lemma RunFollowsProtocol(c: Config, ws: seq<World>, es: seq<Event>) returns (pws: seq<CheckThenSets.World>, pes: seq<CheckThenSets.Event>)
    requires IsRun(c, ws, es)
    ensures SeenAs(ws, es, pws, pes) && CheckThenSets.IsRun(CheckThenSets.Config(c.tasks, c.ttl), pws, pes)
  {
    pws := seq(|ws|, i requires 0 <= i < |ws| => ProtocolWorld(ws[i]));
    pes := seq(|es|, i requires 0 <= i < |es| => assert Enabled(c, ws[i], es[i]); ProtocolEvent(es[i]));
    var p := CheckThenSets.Config(c.tasks, c.ttl);
    forall i | 0 <= i < |pes|
      ensures CheckThenSets.Enabled(p, pws[i], pes[i]) && pws[i + 1] == CheckThenSets.After(p, pws[i], pes[i])
    {
      assert Enabled(c, ws[i], es[i]) && ws[i + 1] == After(c, ws[i], es[i]);
      NeverCorrupted(c, ws, es, i);
      StepFollowsProtocol(c, ws[i], es[i]);
    }
  }

  lemma {:induction false} SameCount(ws: seq<World>, es: seq<Event>, pws: seq<CheckThenSets.World>, pes: seq<CheckThenSets.Event>,
                                     k: string, limit: Time, i: nat, n: nat)
    requires SeenAs(ws, es, pws, pes) && i <= n <= |es|
    ensures CountRuns(ws, es, k, limit, i, n) == CheckThenSets.CountWrites(pws, pes, k, limit, i, n)
    decreases n - i
  {
    if i < n {
      assert pws[i] == ProtocolWorld(ws[i]) && pes[i] == ProtocolEvent(es[i]);
      SameCount(ws, es, pws, pes, k, limit, i + 1, n);
    }
  }

  /** With N requests in flight, at most N handler runs for one key are cached in the TTL that
      starts with one of them, whatever the interleaving. */
  lemma OverlappingRunsAreBounded(c: Config, ws: seq<World>, es: seq<Event>, k: string, i: nat)
    requires IsRun(c, ws, es) && i < |es| && Caches(ws[i], es[i], k)
    ensures CountRuns(ws, es, k, es[i].now + c.ttl, i, |es|) <= c.tasks
  {
    var pws, pes := RunFollowsProtocol(c, ws, es);
    assert pws[i] == ProtocolWorld(ws[i]) && pes[i] == ProtocolEvent(es[i]);
    CheckThenSets.AtMostNPerWindow(CheckThenSets.Config(c.tasks, c.ttl), pws, pes, k, i);
    SameCount(ws, es, pws, pes, k, es[i].now + c.ttl, i, |es|);
  }

  /** A request and a response for each event of the protocol. */
  function Acted(e: CheckThenSets.Event, r: Request, h: Response): Event {
    match e
    case Check(t, _, now) => Arrive(t, r, now)
    case Write(t, now) => Finish(t, h, now)
    case Abandon(t, now) => GiveUp(t, now)
  }

  /** One more event on both sides. */
  lemma SeenOneMore(c: Config, ws: seq<World>, es: seq<Event>, pws: seq<CheckThenSets.World>, pes: seq<CheckThenSets.Event>, e: Event)
    requires IsRun(c, ws, es) && SeenAs(ws, es, pws, pes) && Enabled(c, ws[|es|], e)
    ensures var p, pw := CheckThenSets.Config(c.tasks, c.ttl), ProtocolWorld(ws[|es|]);
            && CheckThenSets.Enabled(p, pw, ProtocolEvent(e))
            && IsRun(c, ws + [After(c, ws[|es|], e)], es + [e])
            && SeenAs(ws + [After(c, ws[|es|], e)], es + [e], pws + [CheckThenSets.After(p, pw, ProtocolEvent(e))], pes + [ProtocolEvent(e)])
  {
    NeverCorrupted(c, ws, es, |es|);
    StepFollowsProtocol(c, ws[|es|], e);
    var ws', es' := ws + [After(c, ws[|es|], e)], es + [e];
    forall i | 0 <= i < |es'| ensures Enabled(c, ws'[i], es'[i]) && ws'[i + 1] == After(c, ws'[i], es'[i]) {
      if i < |es| { assert ws'[i] == ws[i] && ws'[i + 1] == ws[i + 1] && es'[i] == es[i]; }
    }
  }

  lemma ActedIsEnabled(c: Config, w: World, e: CheckThenSets.Event, r: Request, h: Response)
    requires Applies(r) && (e.Check? ==> e.key == KeyOf(r))
    requires CheckThenSets.Enabled(CheckThenSets.Config(c.tasks, c.ttl), ProtocolWorld(w), e)
    ensures Enabled(c, w, Acted(e, r, h)) && ProtocolEvent(Acted(e, r, h)) == e
  {
  }

  /** Every run of the protocol with one key is seen of some requests. */
  lemma {:induction false} ProtocolRunHappens(c: Config, r: Request, h: Response, pws: seq<CheckThenSets.World>, pes: seq<CheckThenSets.Event>, n: nat)
    returns (ws: seq<World>, es: seq<Event>)
    requires Applies(r) && CheckThenSets.IsRun(CheckThenSets.Config(c.tasks, c.ttl), pws, pes) && n <= |pes|
    requires CheckThenSets.OnlyKey(pes, KeyOf(r))
    ensures IsRun(c, ws, es) && SeenAs(ws, es, pws[..n + 1], pes[..n])
  {
    if n == 0 {
      ws, es := [World(map[], pws[0].clock, map[])], [];
      assert ProtocolWorld(ws[0]) == pws[0];
    } else {
      ws, es := ProtocolRunHappens(c, r, h, pws, pes, n - 1);
      var m := n - 1;
      assert CheckThenSets.Enabled(CheckThenSets.Config(c.tasks, c.ttl), pws[m], pes[m])
          && pws[m + 1] == CheckThenSets.After(CheckThenSets.Config(c.tasks, c.ttl), pws[m], pes[m]);
      assert pws[..n][m] == ProtocolWorld(ws[m]);
      ActedIsEnabled(c, ws[m], pes[m], r, h);
      SeenOneMore(c, ws, es, pws[..n], pes[..m], Acted(pes[m], r, h));
      assert pws[..n + 1] == pws[..n] + [pws[n]] && pes[..n] == pes[..m] + [pes[m]];
      ws, es := ws + [After(c, ws[m], Acted(pes[m], r, h))], es + [Acted(pes[m], r, h)];
    }
  }

  /** Event `i` starts a TTL in which as many runs for `k` are cached as requests can be in
      flight. */
  ghost predicate ReachesBound(c: Config, ws: seq<World>, es: seq<Event>, k: string, i: nat) {
    IsRun(c, ws, es) && i < |es| && Caches(ws[i], es[i], k) && CountRuns(ws, es, k, es[i].now + c.ttl, i, |es|) == c.tasks
  }

  /** ... and N runs do happen. */
  lemma OverlappingRunsReachBound(c: Config, r: Request, h: Response)
    requires c.tasks >= 1 && c.ttl >= 1 && Applies(r)
    ensures exists ws, es, i :: ReachesBound(c, ws, es, KeyOf(r), i)
  {
    var pws, pes, i := CheckThenSets.ReachBound(CheckThenSets.Config(c.tasks, c.ttl), KeyOf(r));
    var ws, es := ProtocolRunHappens(c, r, h, pws, pes, |pes|);
    assert pws[..|pes| + 1] == pws && pes[..|pes|] == pes;
    BoundCarriesOver(c, ws, es, pws, pes, KeyOf(r), i);
  }

  lemma BoundCarriesOver(c: Config, ws: seq<World>, es: seq<Event>, pws: seq<CheckThenSets.World>, pes: seq<CheckThenSets.Event>, k: string, i: nat)
    requires IsRun(c, ws, es) && SeenAs(ws, es, pws, pes) && i < |es| && CheckThenSets.WritesKey(pws[i], pes[i], k)
    requires CheckThenSets.CountWrites(pws, pes, k, pes[i].now + c.ttl, i, |pes|) == c.tasks
    ensures ReachesBound(c, ws, es, k, i)
  {
    assert pws[i] == ProtocolWorld(ws[i]) && pes[i] == ProtocolEvent(es[i]);
    SameCount(ws, es, pws, pes, k, pes[i].now + c.ttl, i, |es|);
  }
}
