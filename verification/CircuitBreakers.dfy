/** `shared/circuit_breaker.py`: a circuit breaker whose `call` is two atomic, lock-protected
    blocks with an unlocked await between them, so any number of calls can be in flight while
    the circuit moves between CLOSED, OPEN and HALF_OPEN. */
module CircuitBreakers {

  datatype Circuit = Closed | Open | HalfOpen

  datatype Config = Config(threshold: int, recovery: real)

  datatype Breaker = Breaker(state: Circuit, failures: nat, lastFailure: real, permit: bool)

  const INITIAL := Breaker(Closed, 0, 0.0, false)

  /** What the first block tells the caller. */
  datatype Verdict = Admitted | RejectedOpen | RejectedProbing

  /** The block that runs before the wrapped function is awaited. */
  function Enter(c: Config, b: Breaker, now: real): (Breaker, Verdict) {
    if b.state == Open && now - b.lastFailure < c.recovery then (b, RejectedOpen)
    else if b.state == Open then (b.(state := HalfOpen, permit := false), Admitted)
    else if b.state == HalfOpen && !b.permit then (b, RejectedProbing)
    else (b.(permit := if b.state == HalfOpen then false else b.permit), Admitted)
  }

  /** The block that runs when the wrapped function returned. */
  function Succeed(b: Breaker): Breaker {
    match b.state
    case HalfOpen => b.(state := Closed, failures := 0)
    case Closed => b.(failures := 0)
    case Open => b
  }

  /** The block that runs when the wrapped function raised. */
  function Fail(c: Config, b: Breaker, now: real): Breaker {
    var b' := b.(failures := b.failures + 1, lastFailure := now);
    if b'.failures >= c.threshold then b'.(state := Open) else b'
  }

  /** The object itself. `call` is `Enter`, the await, then `Succeed` or `Fail`; a cancelled
      call runs neither. */
  class CircuitBreaker {
    const config: Config
    var state: Circuit
    var failureCount: nat
    var lastFailureTime: real
    var halfOpenPermitted: bool

    function View(): Breaker
      reads this
    {
      Breaker(state, failureCount, lastFailureTime, halfOpenPermitted)
    }

    constructor (failureThreshold: int, recoveryTimeout: real)
      ensures config == Config(failureThreshold, recoveryTimeout)
      ensures View() == INITIAL
    {
      config := Config(failureThreshold, recoveryTimeout);
      state := Closed;
      failureCount := 0;
      lastFailureTime := 0.0;
      halfOpenPermitted := false;
    }

    method TryEnter(now: real) returns (v: Verdict)
      modifies this
      ensures (View(), v) == Enter(config, old(View()), now)
    {
      if state == Open {
        if now - lastFailureTime >= config.recovery {
          state := HalfOpen;
          halfOpenPermitted := true;
        } else {
          return RejectedOpen;
        }
      }
      if state == HalfOpen {
        if halfOpenPermitted {
          halfOpenPermitted := false;
        } else {
          return RejectedProbing;
        }
      }
      return Admitted;
    }

    method OnSuccess()
      modifies this
      ensures View() == Succeed(old(View()))
    {
      if state == HalfOpen {
        state := Closed;
        failureCount := 0;
      } else if state == Closed {
        failureCount := 0;
      }
    }

    method OnFailure(now: real)
      modifies this
      ensures View() == Fail(config, old(View()), now)
    {
      failureCount := failureCount + 1;
      lastFailureTime := now;
      if failureCount >= config.threshold {
        state := Open;
      }
    }
  }

  // ---------------------------------------------------------------------------------------
  // Many callers: every interleaving of the atomic blocks under a nondecreasing clock.

  type CallId = nat

  datatype World = World(breaker: Breaker, clock: real, inFlight: set<CallId>)

  datatype Event =
    | Entering(id: CallId, now: real)
    | Succeeding(id: CallId, now: real)
    | Failing(id: CallId, now: real)
    | Cancelling(id: CallId, now: real)

  predicate Admits(c: Config, w: World, e: Event) {
    e.Entering? && Enter(c, w.breaker, e.now).1 == Admitted
  }

  /** A call enters once while it is in flight, and only a call in flight completes. */
  predicate Enabled(w: World, e: Event) {
    w.clock <= e.now && (e.Entering? <==> e.id !in w.inFlight)
  }

  function After(c: Config, w: World, e: Event): World
    requires Enabled(w, e)
  {
    match e
    case Entering(id, now) =>
      World(Enter(c, w.breaker, now).0, now, if Admits(c, w, e) then w.inFlight + {id} else w.inFlight)
    case Succeeding(id, now) => World(Succeed(w.breaker), now, w.inFlight - {id})
    case Failing(id, now) => World(Fail(c, w.breaker, now), now, w.inFlight - {id})
    case Cancelling(id, now) => World(w.breaker, now, w.inFlight - {id})
  }

  /** `ws[i]` is the world before event `es[i]`. */
  ghost predicate IsPath(c: Config, ws: seq<World>, es: seq<Event>) {
    |ws| == |es| + 1 &&
    forall i | 0 <= i < |es| :: Enabled(ws[i], es[i]) && ws[i + 1] == After(c, ws[i], es[i])
  }

  ghost predicate IsRun(c: Config, ws: seq<World>, es: seq<Event>) {
    IsPath(c, ws, es) && ws[0].breaker == INITIAL && ws[0].inFlight == {}
  }

  predicate NoCancel(es: seq<Event>) {
    forall i | 0 <= i < |es| :: !es[i].Cancelling?
  }

  /** Between blocks the probe permit is never left set, and a circuit that is not CLOSED
      has counted at least `threshold` failures. */
  ghost predicate Invariant(c: Config, w: World) {
    && !w.breaker.permit
    && (w.breaker.state != Closed ==> w.breaker.failures >= c.threshold)
    && (c.threshold >= 1 && w.breaker.state == Closed ==> w.breaker.failures < c.threshold)
  }

  lemma {:induction false} InvariantHolds(c: Config, ws: seq<World>, es: seq<Event>, n: nat)
    requires IsRun(c, ws, es) && n < |ws|
    ensures Invariant(c, ws[n])
  {
    if n > 0 {
      InvariantHolds(c, ws, es, n - 1);
      assert ws[n - 1 + 1] == After(c, ws[n - 1], es[n - 1]);
    }
  }

  lemma {:induction false} ClockGrows(c: Config, ws: seq<World>, es: seq<Event>, i: nat, j: nat)
    requires IsPath(c, ws, es) && i <= j < |ws|
    ensures ws[i].clock <= ws[j].clock
  {
    if i < j {
      ClockGrows(c, ws, es, i, j - 1);
      assert ws[j - 1 + 1] == After(c, ws[j - 1], es[j - 1]);
    }
  }

  /** The circuit is CLOSED exactly while fewer than `threshold` failures are counted. */
  ghost predicate ClosedExactlyBelowThreshold(c: Config) {
    forall ws: seq<World>, es, n | IsRun(c, ws, es) && 0 <= n < |ws| ::
      ws[n].breaker.state == Closed <==> ws[n].breaker.failures < c.threshold
  }

  /** ... which is what the counter means in every run, cancellations included, if and only if
      the configured threshold is positive; the code accepts any integer. */
  lemma StateMatchesCounter(c: Config)
    ensures ClosedExactlyBelowThreshold(c) <==> c.threshold >= 1
  {
    if c.threshold >= 1 {
      forall ws: seq<World>, es, n | IsRun(c, ws, es) && 0 <= n < |ws|
        ensures ws[n].breaker.state == Closed <==> ws[n].breaker.failures < c.threshold
      {
        InvariantHolds(c, ws, es, n);
      }
    } else {
      var ws := [World(INITIAL, 0.0, {})];
      assert IsRun(c, ws, []);
      assert ws[0].breaker.state == Closed && !(ws[0].breaker.failures < c.threshold);
    }
  }

  /** A successful probe, and nothing else, closes the circuit; a failed probe, or the failure
      that reaches the threshold, opens it; an entry after the recovery timeout half-opens it. */
  lemma ChangesExactlyWhen(c: Config, ws: seq<World>, es: seq<Event>, n: nat)
    requires IsRun(c, ws, es) && n < |es|
    ensures var b, e, after := ws[n].breaker, es[n], ws[n + 1].breaker.state;
            && (b.state != Closed && after == Closed <==> b.state == HalfOpen && e.Succeeding?)
            && (b.state != Open && after == Open <==> e.Failing? && (b.state == HalfOpen || (b.state == Closed && b.failures + 1 >= c.threshold)))
            && (b.state != HalfOpen && after == HalfOpen <==> b.state == Open && e.Entering? && e.now - b.lastFailure >= c.recovery)
  {
    InvariantHolds(c, ws, es, n);
    assert ws[n + 1] == After(c, ws[n], es[n]);
  }

  /** A success that finds the circuit not OPEN. */
  predicate Resets(w: World, e: Event) { e.Succeeding? && w.breaker.state != Open }

  /** How many of the events `m..n` are failures. */
  function Failures(es: seq<Event>, m: nat, n: nat): nat
    requires m <= n <= |es|
  {
    if m == n then 0 else Failures(es, m, n - 1) + if es[n - 1].Failing? then 1 else 0
  }

  /** Since event `m`, the start or the one after a reset, the counter has not been reset. */
  ghost predicate CountsSince(ws: seq<World>, es: seq<Event>, m: nat, n: nat)
    requires n <= |es| < |ws|
  {
    m <= n && (m == 0 || Resets(ws[m - 1], es[m - 1])) && forall j | m <= j < n :: !Resets(ws[j], es[j])
  }

  /** The counter is the number of failures since the last success that found the circuit not
      OPEN, or since the start. */
  lemma {:induction false} CounterTells(c: Config, ws: seq<World>, es: seq<Event>, n: nat)
    requires IsRun(c, ws, es) && n < |ws|
    ensures exists m: nat :: CountsSince(ws, es, m, n) && ws[n].breaker.failures == Failures(es, m, n)
  {
    if n == 0 {
      assert CountsSince(ws, es, 0, 0);
    } else {
      CounterTells(c, ws, es, n - 1);
      assert ws[n - 1 + 1] == After(c, ws[n - 1], es[n - 1]);
      if Resets(ws[n - 1], es[n - 1]) {
        assert CountsSince(ws, es, n, n);
      } else {
        var m: nat :| CountsSince(ws, es, m, n - 1) && ws[n - 1].breaker.failures == Failures(es, m, n - 1);
        assert CountsSince(ws, es, m, n);
      }
    }
  }

  /** A circuit that is not CLOSED remembers its last failure. */
  lemma {:induction false} LastFailureTells(c: Config, ws: seq<World>, es: seq<Event>, n: nat)
    requires IsRun(c, ws, es) && n < |ws|
    ensures forall j | 0 <= j < n && es[j].Failing? :: es[j].now <= ws[n].breaker.lastFailure
    ensures ws[n].breaker.state != Closed ==> exists j :: 0 <= j < n && es[j].Failing? && es[j].now == ws[n].breaker.lastFailure
  {
    if n > 0 {
      LastFailureTells(c, ws, es, n - 1);
      assert ws[n - 1 + 1] == After(c, ws[n - 1], es[n - 1]) && Enabled(ws[n - 1], es[n - 1]);
      forall j | 0 <= j < n && es[j].Failing? ensures es[j].now <= ws[n].breaker.lastFailure {
        if j < n - 1 {
          ClockGrows(c, ws, es, j + 1, n - 1);
          assert ws[j + 1] == After(c, ws[j], es[j]);
        }
      }
    }
  }

  /** A call is admitted exactly when the circuit is CLOSED, or OPEN with all failures at least the
      recovery timeout ago. */
  lemma AdmitsExactlyWhen(c: Config, ws: seq<World>, es: seq<Event>, n: nat)
    requires IsRun(c, ws, es) && n < |es|
    ensures Admits(c, ws[n], es[n]) <==>
            es[n].Entering? &&
            (ws[n].breaker.state == Closed ||
             (ws[n].breaker.state == Open && forall j | 0 <= j < n && es[j].Failing? :: es[n].now - es[j].now >= c.recovery))
  {
    InvariantHolds(c, ws, es, n);
    LastFailureTells(c, ws, es, n);
  }

  /** Call `es[k]` was cancelled after it entered. */
  ghost predicate CancelledSince(es: seq<Event>, k: nat, n: nat)
    requires k < n <= |es|
  {
    exists j :: k < j < n && es[j].Cancelling? && es[j].id == es[k].id
  }

  /** Event `k` took the circuit from OPEN to HALF_OPEN by admitting a call; since then nothing
      else was admitted, the circuit stayed HALF_OPEN, and that call is still in flight unless it
      was cancelled. */
  ghost predicate ProbePeriod(c: Config, ws: seq<World>, es: seq<Event>, k: nat, n: nat)
    requires IsPath(c, ws, es)
  {
    && k < n < |ws|
    && ws[k].breaker.state == Open && Admits(c, ws[k], es[k])
    && (forall i | k < i < n :: !Admits(c, ws[i], es[i]))
    && (forall i | k < i <= n :: ws[i].breaker.state == HalfOpen)
    && (es[k].id in ws[n].inFlight <==> !CancelledSince(es, k, n))
  }

  /** While the circuit is HALF_OPEN exactly one call has been admitted since the period began,
      and it is still in flight exactly if it was not cancelled, whatever calls admitted earlier
      do meanwhile. */
  lemma {:induction false} OneProbePerPeriod(c: Config, ws: seq<World>, es: seq<Event>, n: nat)
    requires IsRun(c, ws, es) && n < |ws| && ws[n].breaker.state == HalfOpen
    ensures exists k :: ProbePeriod(c, ws, es, k, n)
  {
    var m := n - 1;
    InvariantHolds(c, ws, es, m);
    assert ws[m + 1] == After(c, ws[m], es[m]);
    if ws[m].breaker.state == HalfOpen {
      OneProbePerPeriod(c, ws, es, m);
      var k: nat :| ProbePeriod(c, ws, es, k, m);
      if CancelledSince(es, k, m) {
        var j :| k < j < m && es[j].Cancelling? && es[j].id == es[k].id;
        assert k < j < n;
      }
      assert ProbePeriod(c, ws, es, k, n);
    } else {
      assert ProbePeriod(c, ws, es, m, n);
    }
  }

  /** Once a failure leaves the circuit OPEN, no call is admitted until the recovery timeout has
      passed since that failure, whatever late completions and cancellations arrive. */
  lemma {:induction false} CoolingPeriod(c: Config, ws: seq<World>, es: seq<Event>, i: nat, j: nat)
    requires IsRun(c, ws, es) && i < j < |es|
    requires es[i].Failing? && ws[i + 1].breaker.state == Open
    requires Admits(c, ws[j], es[j])
    ensures es[j].now - es[i].now >= c.recovery
  {
    assert ws[i + 1] == After(c, ws[i], es[i]);
    if k :| i < k < j && Admits(c, ws[k], es[k]) {
      CoolingPeriod(c, ws, es, i, k);
      assert ws[k + 1] == After(c, ws[k], es[k]);
      ClockGrows(c, ws, es, k + 1, j);
    } else {
      StaysOpen(c, ws, es, i, j);
    }
  }

  lemma {:induction false} StaysOpen(c: Config, ws: seq<World>, es: seq<Event>, i: nat, j: nat)
    requires IsRun(c, ws, es) && i < j < |ws|
    requires es[i].Failing? && ws[i + 1].breaker.state == Open
    requires forall k | i < k < j :: !Admits(c, ws[k], es[k])
    ensures ws[j].breaker.state == Open && ws[j].breaker.lastFailure >= es[i].now
  {
    assert ws[j - 1 + 1] == After(c, ws[j - 1], es[j - 1]);
    if i + 1 < j {
      StaysOpen(c, ws, es, i, j - 1);
      ClockGrows(c, ws, es, i + 1, j - 1);
      assert ws[i + 1] == After(c, ws[i], es[i]);
    }
  }

  /** Some continuation without cancellations ends by admitting a call. */
  ghost predicate CanAdmit(c: Config, w: World) {
    exists ws, es :: AdmittingPath(c, w, ws, es)
  }

  ghost predicate AdmittingPath(c: Config, w: World, ws: seq<World>, es: seq<Event>) {
    && IsPath(c, ws, es) && ws[0] == w && NoCancel(es) && es != []
    && Admits(c, ws[|es| - 1], es[|es| - 1])
  }

  /** HALF_OPEN with its permit spent and nobody left to complete. */
  predicate Stranded(w: World) {
    w.breaker.state == HalfOpen && w.inFlight == {}
  }

  /** The breaker is wedged for good in exactly the stranded states, over all runs with
      cancellations ... */
  lemma WedgedExactlyWhenStranded(c: Config, ws: seq<World>, es: seq<Event>, n: nat)
    requires IsRun(c, ws, es) && n < |ws|
    ensures CanAdmit(c, ws[n]) <==> !Stranded(ws[n])
  {
    InvariantHolds(c, ws, es, n);
    if Stranded(ws[n]) {
      forall vs, fs | IsPath(c, vs, fs) && vs[0] == ws[n] && fs != []
        ensures !Admits(c, vs[|fs| - 1], fs[|fs| - 1])
      {
        StrandedForever(c, vs, fs, |fs| - 1);
      }
    } else {
      Unstick(c, ws[n]);
    }
  }

  /** ... and without cancellations no reachable state is stranded: the breaker never wedges. */
  lemma NeverWedges(c: Config, ws: seq<World>, es: seq<Event>, n: nat)
    requires IsRun(c, ws, es) && NoCancel(es) && n < |ws|
    ensures CanAdmit(c, ws[n])
  {
    if ws[n].breaker.state == HalfOpen {
      OneProbePerPeriod(c, ws, es, n);
      var k: nat :| ProbePeriod(c, ws, es, k, n);
      assert es[k].id in ws[n].inFlight;
    }
    WedgedExactlyWhenStranded(c, ws, es, n);
  }

  lemma {:induction false} StrandedForever(c: Config, ws: seq<World>, es: seq<Event>, n: nat)
    requires IsPath(c, ws, es) && n < |ws|
    requires Stranded(ws[0]) && !ws[0].breaker.permit
    ensures Stranded(ws[n]) && !ws[n].breaker.permit
  {
    if n > 0 {
      StrandedForever(c, ws, es, n - 1);
      assert ws[n - 1 + 1] == After(c, ws[n - 1], es[n - 1]);
    }
  }

  /** From any other state at most one completion and a long enough wait admit a call. */
  lemma Unstick(c: Config, w: World)
    requires Invariant(c, w) && !Stranded(w)
    ensures CanAdmit(c, w)
  {
    var id := FreshId(w.inFlight);
    var due := w.breaker.lastFailure + c.recovery;
    var e := Entering(id, if w.clock < due then due else w.clock);
    if w.breaker.state == HalfOpen {
      var probe :| probe in w.inFlight;
      var d := Succeeding(probe, w.clock);
      var w' := After(c, w, d);
      assert AdmittingPath(c, w, [w, w', After(c, w', e)], [d, e]);
    } else {
      assert AdmittingPath(c, w, [w, After(c, w, e)], [e]);
    }
  }

  lemma FreshId(used: set<CallId>) returns (id: CallId)
    ensures id !in used
  {
    var bound := BoundOf(used);
    id := bound;
  }

  lemma BoundOf(s: set<nat>) returns (b: nat)
    ensures forall x | x in s :: x < b
  {
    if s == {} {
      b := 0;
    } else {
      var x :| x in s;
      var b' := BoundOf(s - {x});
      b := if b' <= x then x + 1 else b';
      assert forall y | y in s :: y == x || y in s - {x};
    }
  }

  lemma Extend(c: Config, ws: seq<World>, es: seq<Event>, e: Event) returns (ws': seq<World>, es': seq<Event>)
    requires IsPath(c, ws, es) && Enabled(ws[|es|], e)
    ensures IsPath(c, ws', es') && ws'[0] == ws[0] && |es'| == |es| + 1
    ensures ws'[|es'|] == After(c, ws[|es|], e)
  {
    ws', es' := ws + [After(c, ws[|es|], e)], es + [e];
    forall i | 0 <= i < |es'|
      ensures Enabled(ws'[i], es'[i]) && ws'[i + 1] == After(c, ws'[i], es'[i])
    {
      if i < |es| {
        assert ws'[i] == ws[i] && es'[i] == es[i] && ws'[i + 1] == ws[i + 1];
      }
    }
  }

  /** `k` calls one after the other, all failing. */
  lemma {:induction false} FailuresInARow(c: Config, k: nat) returns (ws: seq<World>, es: seq<Event>)
    requires k == 0 || k == 1 || k <= c.threshold
    ensures IsRun(c, ws, es)
    ensures var w := ws[|es|]; w.inFlight == {} && !w.breaker.permit && w.breaker.failures == k
    ensures ws[|es|].breaker.state == if k >= 1 && k >= c.threshold then Open else Closed
  {
    if k == 0 {
      ws, es := [World(INITIAL, 0.0, {})], [];
    } else {
      ws, es := FailuresInARow(c, k - 1);
      var now := ws[|es|].clock;
      ws, es := Extend(c, ws, es, Entering(0, now));
      ws, es := Extend(c, ws, es, Failing(0, now));
    }
  }

  /** Under every configuration one cancelled probe is enough: some run reaches a state that
      never admits another call. */
  lemma CancelledProbeWedges(c: Config)
    ensures exists ws, es, n :: IsRun(c, ws, es) && 0 <= n < |ws| && !CanAdmit(c, ws[n])
  {
    var ws, es := FailuresInARow(c, if c.threshold < 1 then 1 else c.threshold);
    var w := ws[|es|];
    var due := w.breaker.lastFailure + c.recovery;
    var now := if w.clock < due then due else w.clock;
    ws, es := Extend(c, ws, es, Entering(0, now));
    ws, es := Extend(c, ws, es, Cancelling(0, now));
    assert ws[|es|].inFlight == {};
    WedgedExactlyWhenStranded(c, ws, es, |es|);
    var n := |es|;
    assert IsRun(c, ws, es) && 0 <= n < |ws| && !CanAdmit(c, ws[n]);
  }
}
