/** `shared/http_client.py`: `resilient_request`, a retry loop with exponential backoff over one
    circuit breaker per service. A request runs alone here: between its own blocks nobody else
    touches the breaker. */
module HttpClients {
  import opened Wrappers
  import opened CircuitBreakers

  /** What the network call does: an HTTP response, or one of three kinds of exception. */
  datatype Outcome = Response(status: int) | TimedOut | ConnectFailed | OtherError

  /** One attempt of the environment: the outcome, how long it took, and the idle time the
      event loop adds before the next attempt starts. */
  datatype Attempt = Attempt(outcome: Outcome, duration: real, lag: real)

  /** The outcomes of attempts 1, 2, 3, ... */
  type Network = nat -> Attempt

  datatype Result =
    | Returned(status: int)
    | NetworkError(outcome: Outcome)
    | ServerError(status: int)
    | CircuitOpen
    | NoAttempts

  /** Where the loop stands: the next attempt, the breaker, the clock, the time spent in
      `sleep`, the calls that reached the network and the last recorded exception. */
  datatype Progress = Progress(attempt: nat, breaker: Breaker, clock: real, slept: real, calls: nat, last: Option<Result>)

  datatype Report = Report(result: Result, end: Progress)

  predicate IsServerError(status: int) { 500 <= status < 600 }

  predicate Raises(o: Outcome) { !o.Response? }

  /** `_is_retryable` of what an attempt produced. */
  predicate Retryable(o: Outcome) {
    o.TimedOut? || o.ConnectFailed? || (o.Response? && IsServerError(o.status))
  }

  predicate Final(o: Outcome) { o.Response? && !IsServerError(o.status) }

  function Recorded(o: Outcome): Result {
    if o.Response? then ServerError(o.status) else NetworkError(o)
  }

  function Pow2(n: nat): (r: real)
    ensures r >= 1.0
  {
    if n == 0 then 1.0 else 2.0 * Pow2(n - 1)
  }

  const BACKOFF_BASE := 0.5

  /** The sleep after attempt `k`, when it is retryable and not the last one. */
  function Delay(k: nat, o: Outcome): (d: real)
    requires k >= 1
    ensures d >= 0.0
  {
    if Retryable(o) then BACKOFF_BASE * Pow2(k - 1) else 0.0
  }

  function Settle(c: Config, b: Breaker, o: Outcome, now: real): Breaker {
    if o.Response? then Succeed(b) else Fail(c, b, now)
  }

  /** The state after an admitted attempt. */
  function Called(c: Config, net: Network, b: Breaker, p: Progress): Progress {
    var a := net(p.attempt);
    var now := p.clock + a.duration;
    p.(breaker := Settle(c, b, a.outcome, now), clock := now, calls := p.calls + 1)
  }

  /** The state at the start of the next iteration, after an attempt that did not return. */
  function Resumed(net: Network, max: int, p: Progress): Progress
    requires p.attempt >= 1
  {
    var a := net(p.attempt);
    var p' := p.(last := Some(Recorded(a.outcome)), attempt := p.attempt + 1);
    if p.attempt < max then
      var d := Delay(p.attempt, a.outcome);
      p'.(slept := p.slept + d, clock := p.clock + d + a.lag)
    else p'
  }

  /** The loop from `p` on, as a function of the environment. */
  function Request(c: Config, net: Network, max: int, p: Progress): Report
    requires p.attempt >= 1
    decreases max - p.attempt
  {
    if p.attempt > max then Report(if p.last.Some? then p.last.value else NoAttempts, p)
    else
      var (b, v) := Enter(c, p.breaker, p.clock);
      if v != Admitted then Report(CircuitOpen, p.(breaker := b))
      else
        var p' := Called(c, net, b, p);
        var o := net(p.attempt).outcome;
        if Final(o) then Report(Returned(o.status), p')
        else Request(c, net, max, Resumed(net, max, p'))
  }

  function Start(b: Breaker, clock: real): Progress {
    Progress(1, b, clock, 0.0, 0, None)
  }

  class HttpClient {
    const failureThreshold: int
    const recoveryTimeout: real
    var breakers: map<string, CircuitBreaker>

    /** One breaker per service name, never shared. */
    ghost predicate Valid()
      reads this, breakers.Values
    {
      && (forall s | s in breakers :: breakers[s].config == Config(failureThreshold, recoveryTimeout))
      && (forall s, t | s in breakers && t in breakers && breakers[s] == breakers[t] :: s == t)
    }

    /** The breaker of a service, in the state a service that was never called would have. */
    ghost function BreakerOf(service: string): Breaker
      reads this, breakers.Values
    {
      if service in breakers then breakers[service].View() else INITIAL
    }

    constructor (failureThreshold: int, recoveryTimeout: real)
      ensures Valid() && forall s :: BreakerOf(s) == INITIAL
      ensures this.failureThreshold == failureThreshold && this.recoveryTimeout == recoveryTimeout
    {
      this.failureThreshold := failureThreshold;
      this.recoveryTimeout := recoveryTimeout;
      breakers := map[];
    }

    method GetBreaker(service: string) returns (b: CircuitBreaker)
      requires Valid()
      modifies this
      ensures Valid() && service in breakers && breakers[service] == b
      ensures old(breakers.Keys) <= breakers.Keys
      ensures forall s | s in old(breakers) :: breakers[s] == old(breakers[s])
      ensures service !in old(breakers) ==> fresh(b) && breakers.Keys == old(breakers.Keys) + {service}
      ensures service in old(breakers) ==> breakers == old(breakers)
      ensures forall s :: BreakerOf(s) == old(BreakerOf(s))
    {
      if service !in breakers {
        var breaker := new CircuitBreaker(failureThreshold, recoveryTimeout);
        breakers := breakers[service := breaker];
      }
      b := breakers[service];
    }

    /** The request reports what `Request` says, leaves its service's breaker accordingly and
        every other service's breaker as it was. */
    method ResilientRequest(service: string, max: int, net: Network, clock: real) returns (r: Report)
      requires Valid()
      modifies this, breakers.Values
      ensures Valid()
      ensures r == Request(Config(failureThreshold, recoveryTimeout), net, max, Start(old(BreakerOf(service)), clock))
      ensures BreakerOf(service) == r.end.breaker
      ensures forall s | s != service :: BreakerOf(s) == old(BreakerOf(s))
    {
      var breaker := GetBreaker(service);
      r := Retry(breaker, max, net, clock);
    }

    /** The retry loop. */
    static method Retry(breaker: CircuitBreaker, max: int, net: Network, clock: real) returns (r: Report)
      modifies breaker
      ensures r == Request(breaker.config, net, max, Start(old(breaker.View()), clock))
      ensures breaker.View() == r.end.breaker
    {
      var p := Start(breaker.View(), clock);
      while p.attempt <= max
        invariant p.attempt >= 1 && p.breaker == breaker.View()
        invariant Request(breaker.config, net, max, p) == Request(breaker.config, net, max, Start(old(breaker.View()), clock))
        decreases max - p.attempt
      {
        var verdict := breaker.TryEnter(p.clock);
        if verdict != Admitted {
          return Report(CircuitOpen, p.(breaker := breaker.View()));
        }
        var a := net(p.attempt);
        var now := p.clock + a.duration;
        if a.outcome.Response? {
          breaker.OnSuccess();
        } else {
          breaker.OnFailure(now);
        }
        p := p.(breaker := breaker.View(), clock := now, calls := p.calls + 1);
        if Final(a.outcome) {
          return Report(Returned(a.outcome.status), p);
        }
        p := p.(last := Some(Recorded(a.outcome)));
        if p.attempt < max {
          if Retryable(a.outcome) {
            var delay := BACKOFF_BASE * Pow2(p.attempt - 1);
            p := p.(clock := p.clock + delay, slept := p.slept + delay);
          }
          p := p.(clock := p.clock + a.lag);
        }
        p := p.(attempt := p.attempt + 1);
      }
      return Report(if p.last.Some? then p.last.value else NoAttempts, p);
    }
  }

  ghost predicate TimeGrows(net: Network) {
    forall k :: net(k).duration >= 0.0 && net(k).lag >= 0.0
  }

  /** What a request does to the breaker: call `id` enters at each attempt from `first` on, and
      after an attempt it completes as a success exactly if there was a response, of any status. */
  ghost predicate Enacts(net: Network, id: CallId, first: nat, es: seq<Event>)
    decreases |es|
  {
    es == [] ||
    (es[0].Entering? && es[0].id == id &&
     (|es| == 1 ||
      (es[1].id == id && (if net(first).outcome.Response? then es[1].Succeeding? else es[1].Failing?) && Enacts(net, id, first + 1, es[2..]))))
  }

  /** The calls among such events. */
  function Completed(es: seq<Event>): nat { if |es| < 2 then 0 else 1 + Completed(es[2..]) }

  lemma EnactsMore(net: Network, id: CallId, first: nat, enter: Event, complete: Event, rest: seq<Event>)
    requires enter.Entering? && enter.id == complete.id == id && Enacts(net, id, first + 1, rest)
    requires if net(first).outcome.Response? then complete.Succeeding? else complete.Failing?
    ensures Enacts(net, id, first, [enter, complete] + rest) && Completed([enter, complete] + rest) == 1 + Completed(rest)
  {
    assert ([enter, complete] + rest)[2..] == rest;
  }

  /** A request is a path of the breaker machine: from wherever a path has led, it adds these
      events, a completion for each call, and leaves the breaker as it reports. */
  lemma {:induction false} RequestIsPath(c: Config, net: Network, max: int, p: Progress, id: CallId, ws: seq<World>, es: seq<Event>)
    returns (ws': seq<World>, added: seq<Event>)
    requires TimeGrows(net) && p.attempt >= 1 && IsPath(c, ws, es)
    requires ws[|es|].breaker == p.breaker && ws[|es|].clock <= p.clock && id !in ws[|es|].inFlight
    ensures var r, es' := Request(c, net, max, p), es + added;
            && IsPath(c, ws', es') && ws'[0] == ws[0]
            && ws'[|es'|].breaker == r.end.breaker && ws'[|es'|].inFlight == ws[|es|].inFlight && ws'[|es'|].clock <= r.end.clock
            && Enacts(net, id, p.attempt, added) && r.end.calls == p.calls + Completed(added)
    decreases max - p.attempt
  {
    ws', added := ws, [];
    if p.attempt <= max {
      var (b, v) := Enter(c, p.breaker, p.clock);
      if v == Admitted {
        var p' := Called(c, net, b, p);
        added := [Entering(id, p.clock), Completion(net(p.attempt).outcome, id, p'.clock)];
        assert net(p.attempt).duration >= 0.0 && net(p.attempt).lag >= 0.0;
        ws' := OneCall(c, net, p, id, ws, es);
        var rest := [];
        if !Final(net(p.attempt).outcome) {
          ws', rest := RequestIsPath(c, net, max, Resumed(net, max, p'), id, ws', es + added);
        }
        EnactsMore(net, id, p.attempt, added[0], added[1], rest);
        assert es + added + rest == es + (added + rest);
        added := added + rest;
      } else {
        added := [Entering(id, p.clock)];
        ws' := Longer(c, ws, es, Entering(id, p.clock));
      }
    }
  }

  function Completion(o: Outcome, id: CallId, now: real): Event {
    if o.Response? then Succeeding(id, now) else Failing(id, now)
  }

  lemma OneCall(c: Config, net: Network, p: Progress, id: CallId, ws: seq<World>, es: seq<Event>) returns (ws': seq<World>)
    requires IsPath(c, ws, es) && net(p.attempt).duration >= 0.0
    requires ws[|es|].breaker == p.breaker && ws[|es|].clock <= p.clock && id !in ws[|es|].inFlight
    requires Enter(c, p.breaker, p.clock).1 == Admitted
    ensures var p' := Called(c, net, Enter(c, p.breaker, p.clock).0, p);
            && IsPath(c, ws', es + [Entering(id, p.clock), Completion(net(p.attempt).outcome, id, p'.clock)]) && ws'[0] == ws[0]
            && ws'[|es| + 2] == World(p'.breaker, p'.clock, ws[|es|].inFlight)
  {
    var p' := Called(c, net, Enter(c, p.breaker, p.clock).0, p);
    var enter, complete := Entering(id, p.clock), Completion(net(p.attempt).outcome, id, p'.clock);
    ws' := Longer(c, ws, es, enter);
    ws' := Longer(c, ws', es + [enter], complete);
    assert es + [enter] + [complete] == es + [enter, complete];
    assert ws[|es|].inFlight + {id} - {id} == ws[|es|].inFlight;
  }

  lemma Longer(c: Config, ws: seq<World>, es: seq<Event>, e: Event) returns (ws': seq<World>)
    requires IsPath(c, ws, es) && Enabled(ws[|es|], e)
    ensures IsPath(c, ws', es + [e]) && ws'[0] == ws[0] && ws'[|es| + 1] == After(c, ws[|es|], e)
  {
    ws' := ws + [After(c, ws[|es|], e)];
    var es' := es + [e];
    forall i | 0 <= i < |es'| ensures Enabled(ws'[i], es'[i]) && ws'[i + 1] == After(c, ws'[i], es'[i]) {
      if i < |es| { assert ws'[i] == ws[i] && es'[i] == es[i] && ws'[i + 1] == ws[i + 1]; }
    }
  }

  /** On a CLOSED breaker, when every attempt gets a response, whatever its status, the circuit
      stays CLOSED, and no failure is left once a call was made. */
  lemma ResponsesKeepClosed(c: Config, net: Network, max: int, b: Breaker, clock: real)
    requires b.state == Closed && forall k | 1 <= k :: net(k).outcome.Response?
    ensures var r := Request(c, net, max, Start(b, clock));
            r.end.breaker.state == Closed && (max >= 1 ==> r.end.breaker.failures == 0) && !r.result.CircuitOpen?
  {
    RespondingFrom(c, net, max, Start(b, clock));
  }

  lemma {:induction false} RespondingFrom(c: Config, net: Network, max: int, p: Progress)
    requires p.attempt >= 1 && p.breaker.state == Closed && (p.calls > 0 ==> p.breaker.failures == 0)
    requires p.last.Some? ==> !p.last.value.CircuitOpen?
    requires forall k | 1 <= k :: net(k).outcome.Response?
    ensures var r := Request(c, net, max, p);
            r.end.breaker.state == Closed && (p.calls > 0 || p.attempt <= max ==> r.end.breaker.failures == 0) && !r.result.CircuitOpen?
    decreases max - p.attempt
  {
    if p.attempt <= max {
      var (b, v) := Enter(c, p.breaker, p.clock);
      if !Final(net(p.attempt).outcome) { RespondingFrom(c, net, max, Resumed(net, max, Called(c, net, b, p))); }
    }
  }

  /** The sleeps after the first `n` attempts: doubling from half a second, after a timeout, a
      failed connection or a status from 500 to 599. */
  function Backoffs(net: Network, n: nat): real {
    if n == 0 then 0.0
    else
      var o := net(n).outcome;
      var sleeps := o.TimedOut? || o.ConnectFailed? || (o.Response? && 500 <= o.status <= 599);
      Backoffs(net, n - 1) + if sleeps then 0.5 * Pow2(n - 1) else 0.0
  }

  /** A request sleeps after each of its calls but the last one; after that one too if the circuit
      then rejects the next call. */
  lemma SleepsExactly(c: Config, net: Network, max: int, b: Breaker, clock: real)
    ensures var r := Request(c, net, max, Start(b, clock));
            r.end.slept == Backoffs(net, if r.result.CircuitOpen? || r.end.calls == 0 then r.end.calls else r.end.calls - 1)
  {
    SleepingFrom(c, net, max, Start(b, clock));
  }

  lemma {:induction false} SleepingFrom(c: Config, net: Network, max: int, p: Progress)
    requires p.attempt == p.calls + 1 && (p.calls > 0 ==> p.calls <= max)
    requires p.slept == Backoffs(net, if p.calls == 0 || p.calls < max then p.calls else p.calls - 1)
    requires p.last.Some? ==> !p.last.value.CircuitOpen?
    ensures var r := Request(c, net, max, p);
            r.end.slept == Backoffs(net, if r.result.CircuitOpen? || r.end.calls == 0 then r.end.calls else r.end.calls - 1)
    decreases max - p.attempt
  {
    if p.attempt <= max {
      var (b, v) := Enter(c, p.breaker, p.clock);
      if v == Admitted && !Final(net(p.attempt).outcome) {
        SleepingFrom(c, net, max, Resumed(net, max, Called(c, net, b, p)));
      }
    }
  }

  /** A response is returned exactly if the last call got one with a status outside 500 to 599. */
  lemma ReturnsExactlyWhen(c: Config, net: Network, max: int, b: Breaker, clock: real)
    ensures var r := Request(c, net, max, Start(b, clock));
            var n := r.end.calls;
            r.result.Returned? <==> n >= 1 && net(n).outcome.Response? && (net(n).outcome.status < 500 || net(n).outcome.status > 599)
  {
    ResultTells(c, net, max, b, clock);
  }

  /** A request never makes more than `max` calls, and it sleeps at most
      0.5 * (2^(max-1) - 1) seconds, whatever the network and the breaker do. */
  lemma SleepIsBounded(c: Config, net: Network, max: nat, b: Breaker, clock: real)
    requires max >= 1
    ensures var r := Request(c, net, max, Start(b, clock));
            r.end.slept <= BACKOFF_BASE * (Pow2(max - 1) - 1.0) && r.end.calls <= max
  {
    SleepFrom(c, net, max, Start(b, clock));
  }

  lemma {:induction false} SleepFrom(c: Config, net: Network, max: nat, p: Progress)
    requires max >= 1 && p.attempt >= 1
    ensures var r := Request(c, net, max, p);
            && r.end.calls <= p.calls + (if p.attempt <= max then max - p.attempt + 1 else 0)
            && (p.attempt <= max ==> r.end.slept <= p.slept + BACKOFF_BASE * (Pow2(max - 1) - Pow2(p.attempt - 1)))
            && (p.attempt > max ==> r.end.slept == p.slept)
    decreases max - p.attempt
  {
    if p.attempt <= max {
      var (b, v) := Enter(c, p.breaker, p.clock);
      Pow2Monotone(p.attempt - 1, max - 1);
      if v == Admitted && !Final(net(p.attempt).outcome) {
        SleepFrom(c, net, max, Resumed(net, max, Called(c, net, b, p)));
      }
    }
  }

  lemma {:induction false} Pow2Monotone(a: nat, b: nat)
    requires a <= b
    ensures Pow2(a) <= Pow2(b)
  {
    if a < b { Pow2Monotone(a, b - 1); }
  }

  /** The time between the failure of attempt `k` and the next attempt. */
  function Gap(net: Network, k: nat): real
    requires k >= 1
  {
    Delay(k, net(k).outcome) + net(k).lag
  }

  /** On a CLOSED breaker that has counted `f` failures, when every call raises, the request
      makes min(max, threshold - f) calls and ends with the last exception, or with
      CircuitBreakerError when attempts remain after the circuit opened; this happens exactly
      when the pause after the opening failure is shorter than the recovery timeout. */
  lemma AllCallsRaise(c: Config, net: Network, max: nat, b: Breaker, clock: real)
    requires b.state == Closed && b.failures < c.threshold && max >= 1
    requires forall k | 1 <= k <= max :: Raises(net(k).outcome)
    ensures var r := Request(c, net, max, Start(b, clock));
            var opens := c.threshold - b.failures;
            if max <= opens then
              r.end.calls == max && r.result == NetworkError(net(max).outcome)
            else
              && (Gap(net, opens) < c.recovery <==> r.end.calls == opens)
              && (Gap(net, opens) < c.recovery ==> r.result == CircuitOpen && r.end.breaker.state == Open)
  {
    RaisingFrom(c, net, max, Start(b, clock));
  }

  lemma {:induction false} RaisingFrom(c: Config, net: Network, max: nat, p: Progress)
    requires p.breaker.state == Closed && p.breaker.failures < c.threshold && 1 <= p.attempt <= max
    requires forall k | 1 <= k <= max :: Raises(net(k).outcome)
    ensures var r := Request(c, net, max, p);
            var opens := p.attempt + (c.threshold - p.breaker.failures) - 1;
            if max <= opens then
              r.end.calls == p.calls + max - p.attempt + 1 && r.result == NetworkError(net(max).outcome)
            else
              && (Gap(net, opens) < c.recovery <==> r.end.calls == p.calls + opens - p.attempt + 1)
              && (Gap(net, opens) < c.recovery ==> r.result == CircuitOpen && r.end.breaker.state == Open)
    decreases max - p.attempt
  {
    var p' := Resumed(net, max, Called(c, net, p.breaker, p));
    assert Request(c, net, max, p) == Request(c, net, max, p');
    if p.attempt < max {
      if p'.breaker.state == Closed {
        RaisingFrom(c, net, max, p');
      } else if Gap(net, p.attempt) >= c.recovery {
        CallsGrow(c, net, max, p');
      }
    }
  }

  /** An admitted attempt adds at least one network call. */
  lemma {:induction false} CallsGrow(c: Config, net: Network, max: nat, p: Progress)
    requires p.attempt >= 1
    ensures var calls := Request(c, net, max, p).end.calls;
            calls >= p.calls + (if p.attempt <= max && Enter(c, p.breaker, p.clock).1 == Admitted then 1 else 0)
    decreases max - p.attempt
  {
    if p.attempt <= max {
      var (b, v) := Enter(c, p.breaker, p.clock);
      if v == Admitted && !Final(net(p.attempt).outcome) {
        CallsGrow(c, net, max, Resumed(net, max, Called(c, net, b, p)));
      }
    }
  }

  /** The breaker counts a 5xx response as a success: a request that only ever meets 5xx
      responses makes all its calls, sleeps the whole geometric sum, raises for the last
      response and leaves the circuit CLOSED with no failures counted. */
  lemma ServerErrorsNeverOpen(c: Config, net: Network, max: nat, b: Breaker, clock: real)
    requires b.state == Closed && max >= 1
    requires forall k | 1 <= k <= max :: net(k).outcome.Response? && IsServerError(net(k).outcome.status)
    ensures var r := Request(c, net, max, Start(b, clock));
            && r.end.calls == max && r.result == ServerError(net(max).outcome.status)
            && r.end.slept == BACKOFF_BASE * (Pow2(max - 1) - 1.0)
            && r.end.breaker.state == Closed && r.end.breaker.failures == 0
  {
    ServerErrorsFrom(c, net, max, Start(b, clock));
  }

  lemma {:induction false} ServerErrorsFrom(c: Config, net: Network, max: nat, p: Progress)
    requires p.breaker.state == Closed && 1 <= p.attempt <= max
    requires forall k | 1 <= k <= max :: net(k).outcome.Response? && IsServerError(net(k).outcome.status)
    ensures var r := Request(c, net, max, p);
            && r.end.calls == p.calls + max - p.attempt + 1 && r.result == ServerError(net(max).outcome.status)
            && r.end.slept == p.slept + BACKOFF_BASE * (Pow2(max - 1) - Pow2(p.attempt - 1))
            && r.end.breaker.state == Closed && r.end.breaker.failures == 0
    decreases max - p.attempt
  {
    var p' := Resumed(net, max, Called(c, net, p.breaker, p));
    assert Request(c, net, max, p) == Request(c, net, max, p');
    if p.attempt < max { ServerErrorsFrom(c, net, max, p'); }
  }

  /** What each ending says about the network. A response is returned as soon as one is not a
      server error, exceptions are those of the last allowed attempt, and RuntimeError means the
      loop never ran. */
  lemma ResultTells(c: Config, net: Network, max: int, b: Breaker, clock: real)
    ensures var r := Request(c, net, max, Start(b, clock));
            var n := r.end.calls;
            && (forall k | 1 <= k < n :: !Final(net(k).outcome))
            && (r.result.Returned? <==> n >= 1 && Final(net(n).outcome))
            && (r.result.Returned? ==> r.result == Returned(net(n).outcome.status))
            && (r.result.NoAttempts? <==> max < 1)
            && (r.result.NetworkError? || r.result.ServerError? ==> n == max && r.result == Recorded(net(max).outcome))
            && (r.result.CircuitOpen? ==> n < max)
  {
    ResultFrom(c, net, max, Start(b, clock));
  }

  lemma {:induction false} ResultFrom(c: Config, net: Network, max: int, p: Progress)
    requires p.attempt == p.calls + 1
    requires forall k | 1 <= k <= p.calls :: !Final(net(k).outcome)
    requires p.last == if p.calls == 0 then None else Some(Recorded(net(p.calls).outcome))
    requires p.calls == 0 || p.calls <= max
    ensures var r := Request(c, net, max, p);
            var n := r.end.calls;
            && (forall k | 1 <= k < n :: !Final(net(k).outcome))
            && (r.result.Returned? <==> n >= 1 && Final(net(n).outcome))
            && (r.result.Returned? ==> r.result == Returned(net(n).outcome.status))
            && (r.result.NoAttempts? <==> max < 1)
            && (r.result.NetworkError? || r.result.ServerError? ==> n == max && r.result == Recorded(net(max).outcome))
            && (r.result.CircuitOpen? ==> n < max)
    decreases max - p.attempt
  {
    if p.attempt <= max {
      var (b, v) := Enter(c, p.breaker, p.clock);
      if v == Admitted && !Final(net(p.attempt).outcome) {
        ResultFrom(c, net, max, Resumed(net, max, Called(c, net, b, p)));
      }
    }
  }
}
