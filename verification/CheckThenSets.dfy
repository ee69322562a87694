/** Deduplication in two separate steps, as the collector (EXISTS, then SETEX) and the
    idempotency middleware (GET, then the handler, then SETEX) do it. Between the steps of one
    task any other task may run, so a key can be written more than once in its TTL. */
module CheckThenSets {
  import opened ExpiringStores

  type Task = nat

  datatype Config = Config(tasks: nat, ttl: int)

  /** `expiry` says when each key expires; `pending` are the tasks that found their key absent
      and have not written it yet. */
  datatype World = World(expiry: map<string, Time>, clock: Time, pending: map<Task, string>)

  datatype Event =
    | Check(task: Task, key: string, now: Time)
    | Write(task: Task, now: Time)
    | Abandon(task: Task, now: Time)

  predicate Present(w: World, k: string, now: Time) {
    k in w.expiry && now < w.expiry[k]
  }

  /** The expiry times of a store. */
  function Expiries<V>(s: Store<V>): map<string, Time> { map k | k in s :: s[k].expiry }

  predicate Enabled(c: Config, w: World, e: Event) {
    w.clock <= e.now && e.task < c.tasks && (e.Check? <==> e.task !in w.pending)
  }

  function After(c: Config, w: World, e: Event): World
    requires Enabled(c, w, e)
  {
    match e
    case Check(t, k, now) => World(w.expiry, now, if Present(w, k, now) then w.pending else w.pending[t := k])
    case Write(t, now) => World(w.expiry[w.pending[t] := now + c.ttl], now, w.pending - {t})
    case Abandon(t, now) => World(w.expiry, now, w.pending - {t})
  }

  ghost predicate IsPath(c: Config, ws: seq<World>, es: seq<Event>) {
    |ws| == |es| + 1 &&
    forall i | 0 <= i < |es| :: Enabled(c, ws[i], es[i]) && ws[i + 1] == After(c, ws[i], es[i])
  }

  ghost predicate IsRun(c: Config, ws: seq<World>, es: seq<Event>) {
    IsPath(c, ws, es) && ws[0].expiry == map[] && ws[0].pending == map[]
  }

  predicate WritesKey(w: World, e: Event, k: string) {
    e.Write? && e.task in w.pending && w.pending[e.task] == k
  }

  /** The writes of `k` among events `i..n` that happen before `limit`. */
  ghost function CountWrites(ws: seq<World>, es: seq<Event>, k: string, limit: Time, i: nat, n: nat): nat
    requires i <= n <= |es| < |ws|
    decreases n - i
  {
    if i == n then 0
    else (if WritesKey(ws[i], es[i], k) && es[i].now < limit then 1 else 0) + CountWrites(ws, es, k, limit, i + 1, n)
  }

  ghost function PendingOn(w: World, k: string): set<Task> {
    set t | t in w.pending && w.pending[t] == k
  }

  lemma {:induction false} TimeGrows(c: Config, ws: seq<World>, es: seq<Event>, i: nat, j: nat)
    requires IsPath(c, ws, es) && i <= j < |es|
    ensures es[i].now <= es[j].now
  {
    if i < j {
      TimeGrows(c, ws, es, i, j - 1);
      assert ws[j - 1 + 1] == After(c, ws[j - 1], es[j - 1]) && Enabled(c, ws[j], es[j]);
    }
  }

  lemma {:induction false} NoWritesLate(c: Config, ws: seq<World>, es: seq<Event>, k: string, limit: Time, i: nat, n: nat)
    requires IsPath(c, ws, es) && i < n <= |es| && es[i].now >= limit
    ensures CountWrites(ws, es, k, limit, i, n) == 0
    decreases n - i
  {
    if i + 1 < n {
      TimeGrows(c, ws, es, i, i + 1);
      NoWritesLate(c, ws, es, k, limit, i + 1, n);
    }
  }

  /** While a key is present until `limit`, only the tasks that had already found it absent can
      write it before then. */
  lemma {:induction false} OnlyPendingWrite(c: Config, ws: seq<World>, es: seq<Event>, k: string, limit: Time, i: nat, n: nat)
    requires IsPath(c, ws, es) && i <= n <= |es|
    requires k in ws[i].expiry && ws[i].expiry[k] >= limit && ws[i].clock + c.ttl >= limit
    ensures CountWrites(ws, es, k, limit, i, n) <= |PendingOn(ws[i], k)|
    decreases n - i
  {
    if i < n {
      var w, e, w' := ws[i], es[i], ws[i + 1];
      assert w' == After(c, w, e);
      if e.now >= limit {
        NoWritesLate(c, ws, es, k, limit, i, n);
      } else {
        OnlyPendingWrite(c, ws, es, k, limit, i + 1, n);
        if WritesKey(w, e, k) {
          assert PendingOn(w', k) == PendingOn(w, k) - {e.task};
        } else {
          assert PendingOn(w', k) <= PendingOn(w, k);
          SubsetIsSmaller(PendingOn(w', k), PendingOn(w, k));
        }
      }
    }
  }

  lemma {:induction false} SubsetIsSmaller<T>(a: set<T>, b: set<T>)
    requires a <= b
    ensures |a| <= |b|
  {
    if a != {} {
      var x :| x in a;
      SubsetIsSmaller(a - {x}, b - {x});
    }
  }

  lemma {:induction false} TasksBelow(s: set<Task>, n: nat)
    requires forall t | t in s :: t < n
    ensures |s| <= n
  {
    if n > 0 {
      TasksBelow(s - {n - 1}, n - 1);
    } else {
      assert s == {};
    }
  }

  lemma {:induction false} PendingAreTasks(c: Config, ws: seq<World>, es: seq<Event>, n: nat)
    requires IsPath(c, ws, es) && ws[0].pending == map[] && n < |ws|
    ensures forall t | t in ws[n].pending :: t < c.tasks
  {
    if n > 0 {
      PendingAreTasks(c, ws, es, n - 1);
      assert ws[n - 1 + 1] == After(c, ws[n - 1], es[n - 1]);
    }
  }

  /** With N tasks, a key is written at most N times in the TTL that starts at one of its
      writes, whatever the interleaving. */
  lemma AtMostNPerWindow(c: Config, ws: seq<World>, es: seq<Event>, k: string, i: nat)
    requires IsPath(c, ws, es) && ws[0].pending == map[] && i < |es| && WritesKey(ws[i], es[i], k)
    ensures CountWrites(ws, es, k, es[i].now + c.ttl, i, |es|) <= c.tasks
  {
    var w := ws[i + 1];
    assert w == After(c, ws[i], es[i]);
    OnlyPendingWrite(c, ws, es, k, es[i].now + c.ttl, i + 1, |es|);
    PendingAreTasks(c, ws, es, i + 1);
    TasksBelow(PendingOn(w, k) + {es[i].task}, c.tasks);
    assert es[i].task !in PendingOn(w, k);
  }

  /** A single task deduplicates exactly: two writes of one key are at least a TTL apart. */
  lemma OneTaskWritesOncePerTtl(c: Config, ws: seq<World>, es: seq<Event>, k: string, i: nat, j: nat)
    requires IsPath(c, ws, es) && ws[0].pending == map[] && c.tasks == 1 && i < j < |es|
    requires WritesKey(ws[i], es[i], k) && WritesKey(ws[j], es[j], k)
    ensures es[j].now - es[i].now >= c.ttl
  {
    AtMostNPerWindow(c, ws, es, k, i);
    TimeGrows(c, ws, es, i, j);
    if es[j].now < es[i].now + c.ttl {
      CountedOnce(ws, es, k, es[i].now + c.ttl, i + 1, j, |es|);
    }
  }

  lemma {:induction false} CountedOnce(ws: seq<World>, es: seq<Event>, k: string, limit: Time, i: nat, j: nat, n: nat)
    requires i <= j < n <= |es| < |ws| && WritesKey(ws[j], es[j], k) && es[j].now < limit
    ensures CountWrites(ws, es, k, limit, i, n) >= 1
    decreases j - i
  {
    if i < j { CountedOnce(ws, es, k, limit, i + 1, j, n); }
  }

  /** A check finds its key exactly when it was written less than a TTL ago: nothing is skipped
      without a reason. */
  lemma CheckSeesRecentWrites(c: Config, ws: seq<World>, es: seq<Event>, n: nat, k: string, now: Time)
    requires IsRun(c, ws, es) && n < |ws|
    ensures Present(ws[n], k, now) <==>
            exists i :: 0 <= i < n && WritesKey(ws[i], es[i], k) && now < es[i].now + c.ttl
  {
    ExpiryIsLatest(c, ws, es, n, k);
  }

  lemma {:induction false} ExpiryIsLatest(c: Config, ws: seq<World>, es: seq<Event>, n: nat, k: string)
    requires IsRun(c, ws, es) && n < |ws|
    ensures k in ws[n].expiry ==> exists i :: 0 <= i < n && WritesKey(ws[i], es[i], k) && ws[n].expiry[k] == es[i].now + c.ttl
    ensures forall i | 0 <= i < n && WritesKey(ws[i], es[i], k) :: k in ws[n].expiry && es[i].now + c.ttl <= ws[n].expiry[k]
  {
    if n > 0 {
      var m := n - 1;
      ExpiryIsLatest(c, ws, es, m, k);
      assert ws[m + 1] == After(c, ws[m], es[m]);
      if WritesKey(ws[m], es[m], k) {
        forall i | 0 <= i < n && WritesKey(ws[i], es[i], k) ensures es[i].now <= es[m].now {
          TimeGrows(c, ws, es, i, m);
        }
      } else {
        assert k in ws[n].expiry <==> k in ws[m].expiry;
        assert k in ws[m].expiry ==> ws[n].expiry[k] == ws[m].expiry[k];
      }
    }
  }

  predicate OnlyKey(es: seq<Event>, k: string) { forall i | 0 <= i < |es| && es[i].Check? :: es[i].key == k }

  /** N tasks do reach the bound. */
  lemma BoundIsReached(c: Config, k: string)
    requires c.tasks >= 1 && c.ttl >= 1
    ensures exists ws, es: seq<Event>, i :: IsRun(c, ws, es) && 0 <= i < |es| && WritesKey(ws[i], es[i], k)
              && CountWrites(ws, es, k, es[i].now + c.ttl, i, |es|) == c.tasks
  {
    var ws, es, i := ReachBound(c, k);
  }

  /** All tasks check before any writes. */
  lemma ReachBound(c: Config, k: string) returns (ws: seq<World>, es: seq<Event>, i: nat)
    requires c.tasks >= 1 && c.ttl >= 1
    ensures IsRun(c, ws, es) && OnlyKey(es, k) && i < |es| && WritesKey(ws[i], es[i], k)
    ensures CountWrites(ws, es, k, es[i].now + c.ttl, i, |es|) == c.tasks
  {
    ws, es := AllCheck(c, k, c.tasks);
    i := |es|;
    ws, es := AllWrite(c, k, ws, es, c.tasks);
    assert WritesKey(ws[i], es[i], k) && es[i].now == 0;
  }

  lemma {:induction false} AllCheck(c: Config, k: string, n: nat) returns (ws: seq<World>, es: seq<Event>)
    requires n <= c.tasks
    ensures IsRun(c, ws, es) && |es| == n && OnlyKey(es, k)
    ensures ws[n].clock == 0 && ws[n].expiry == map[]
    ensures forall t: Task :: (t in ws[n].pending <==> t < n) && (t < n ==> ws[n].pending[t] == k)
  {
    if n == 0 {
      ws, es := [World(map[], 0, map[])], [];
    } else {
      ws, es := AllCheck(c, k, n - 1);
      var w := ws[n - 1];
      ws, es := Extend(c, ws, es, Check(n - 1, k, 0));
      assert ws[n].pending == w.pending[n - 1 := k];
    }
  }

  lemma {:induction false} AllWrite(c: Config, k: string, ws: seq<World>, es: seq<Event>, n: nat) returns (ws': seq<World>, es': seq<Event>)
    requires IsRun(c, ws, es) && OnlyKey(es, k) && n <= c.tasks && c.ttl >= 1
    requires ws[|es|].clock == 0
    requires forall t: Task :: (t in ws[|es|].pending <==> t < n) && (t < n ==> ws[|es|].pending[t] == k)
    ensures IsRun(c, ws', es') && OnlyKey(es', k) && |es'| == |es| + n && es <= es' && ws <= ws'
    ensures forall j | |es| <= j < |es'| :: WritesKey(ws'[j], es'[j], k) && es'[j].now == 0
    ensures CountWrites(ws', es', k, c.ttl, |es|, |es'|) == n
    decreases n
  {
    if n == 0 {
      ws', es' := ws, es;
    } else {
      var ws1, es1 := Extend(c, ws, es, Write(n - 1, 0));
      ws', es' := AllWrite(c, k, ws1, es1, n - 1);
      assert ws'[|es|] == ws1[|es|] && es'[|es|] == es1[|es|];
    }
  }

  lemma Extend(c: Config, ws: seq<World>, es: seq<Event>, e: Event) returns (ws': seq<World>, es': seq<Event>)
    requires IsPath(c, ws, es) && Enabled(c, ws[|es|], e)
    ensures IsPath(c, ws', es') && es' == es + [e] && ws' == ws + [After(c, ws[|es|], e)]
  {
    ws', es' := ws + [After(c, ws[|es|], e)], es + [e];
    forall i | 0 <= i < |es'| ensures Enabled(c, ws'[i], es'[i]) && ws'[i + 1] == After(c, ws'[i], es'[i]) {
      if i < |es| { assert ws'[i] == ws[i] && ws'[i + 1] == ws[i + 1]; }
    }
  }
}
