/** The hourly token quota of `src/nlp/llm_insights.py`: `_TokenQuotaTracker`, `_record_usage`
    and the gated retry loop of `_call_claude`. The wall clock is assumed not to go back. */
module TokenQuotas {
  import opened Wrappers

  type Project = string

  const HOUR := 3600.0
  const MAX_RETRIES := 3
  const RETRY_BASE_DELAY := 1.0

  datatype Usage = Usage(at: real, tokens: nat)

  /** The tokens of the records after `cutoff`. */
  function SumAfter(h: seq<Usage>, cutoff: real): nat {
    if h == [] then 0
    else SumAfter(h[..|h| - 1], cutoff) + (if h[|h| - 1].at > cutoff then h[|h| - 1].tokens else 0)
  }

  /** The records after `cutoff`. */
  function After(h: seq<Usage>, cutoff: real): seq<Usage> {
    if h == [] then []
    else After(h[..|h| - 1], cutoff) + (if h[|h| - 1].at > cutoff then [h[|h| - 1]] else [])
  }

  function Total(h: seq<Usage>): nat {
    if h == [] then 0 else Total(h[..|h| - 1]) + h[|h| - 1].tokens
  }

  lemma {:induction false} AfterAfter(h: seq<Usage>, c: real, d: real)
    requires c <= d
    ensures After(After(h, c), d) == After(h, d) && Total(After(h, c)) == SumAfter(h, c)
  {
    if h != [] {
      var front, last := h[..|h| - 1], h[|h| - 1];
      AfterAfter(front, c, d);
      if last.at > c {
        assert After(h, c)[..|After(h, c)| - 1] == After(front, c);
      } else {
        assert After(h, c) == After(front, c);
      }
    }
  }

  function Lookup<V>(m: map<Project, V>, p: Project, default: V): V {
    if p in m then m[p] else default
  }

  datatype Totals = Totals(inputTokens: nat, outputTokens: nat, calls: nat)

  /** What is left of a history that has been pruned up to some time, if ever, counts at `now`. */
  predicate KeepsRecent(entries: seq<Usage>, history: seq<Usage>, pruned: Option<real>, now: real) {
    match pruned
    case None => entries == history
    case Some(cutoff) => cutoff <= now - HOUR && entries == After(history, cutoff)
  }

  lemma KeepsRecentSnoc(entries: seq<Usage>, history: seq<Usage>, pruned: Option<real>, u: Usage)
    requires KeepsRecent(entries, history, pruned, u.at)
    ensures KeepsRecent(entries + [u], history + [u], pruned, u.at)
  {
    assert (history + [u])[..|history|] == history;
  }

  lemma KeepsRecentPruned(entries: seq<Usage>, history: seq<Usage>, pruned: Option<real>, now: real)
    requires KeepsRecent(entries, history, pruned, now)
    ensures After(entries, now - HOUR) == After(history, now - HOUR)
  {
    if pruned.Some? { AfterAfter(history, pruned.value, now - HOUR); }
  }

  /** Two tables that differ at most in what they say of one project. */
  ghost predicate SameButFor<V>(p: Project, m: map<Project, V>, n: map<Project, V>) { m - {p} == n - {p} }

  class QuotaTracker {
    const maxTokensPerHour: int
    var usage: map<Project, seq<Usage>>
    /** Every record ever made, and up to when records may have been pruned. */
    ghost var history: map<Project, seq<Usage>>
    ghost var pruned: map<Project, real>

    ghost function History(p: Project): seq<Usage>
      reads this
    {
      Lookup(history, p, [])
    }

    ghost function PrunedUntil(p: Project): Option<real>
      reads this
    {
      if p in pruned then Some(pruned[p]) else None
    }

    /** The entries of a project are its whole history, except for records that are too old to
        count at `now`. */
    ghost predicate Valid(p: Project, now: real)
      reads this
    {
      KeepsRecent(Lookup(usage, p, []), History(p), PrunedUntil(p), now)
    }

    constructor (maxTokensPerHour: int)
      ensures forall p, now :: Valid(p, now)
      ensures this.maxTokensPerHour == maxTokensPerHour && history == map[]
    {
      this.maxTokensPerHour := maxTokensPerHour;
      usage, history, pruned := map[], map[], map[];
    }

    method Prune(p: Project, now: real)
      requires Valid(p, now)
      modifies this
      ensures Valid(p, now) && history == old(history)
      ensures p in usage && usage[p] == After(History(p), now - HOUR)
      ensures SameButFor(p, usage, old(usage)) && SameButFor(p, pruned, old(pruned))
    {
      var cutoff := now - HOUR;
      var entries := if p in usage then usage[p] else [];
      var kept := Filter(entries, cutoff);
      KeepsRecentPruned(entries, History(p), PrunedUntil(p), now);
      usage := usage[p := kept];
      pruned := pruned[p := cutoff];
    }

    static method Filter(entries: seq<Usage>, cutoff: real) returns (kept: seq<Usage>)
      ensures kept == After(entries, cutoff)
    {
      kept := [];
      for i := 0 to |entries|
        invariant kept == After(entries[..i], cutoff)
      {
        assert entries[..i + 1][..i] == entries[..i];
        if entries[i].at > cutoff {
          kept := kept + [entries[i]];
        }
      }
      assert entries[..|entries|] == entries;
    }

    method Record(p: Project, tokens: nat, now: real)
      requires Valid(p, now)
      modifies this
      ensures Valid(p, now)
      ensures history == old(history)[p := old(History(p)) + [Usage(now, tokens)]]
      ensures SameButFor(p, usage, old(usage)) && pruned == old(pruned)
    {
      KeepsRecentSnoc(Lookup(usage, p, []), History(p), PrunedUntil(p), Usage(now, tokens));
      usage := usage[p := (if p in usage then usage[p] else []) + [Usage(now, tokens)]];
      history := history[p := History(p) + [Usage(now, tokens)]];
    }

    /** Pruning never changes an answer: it is the sum over everything ever recorded in the last
        hour. */
    method TokensUsed(p: Project, now: real) returns (used: nat)
      requires Valid(p, now)
      modifies this
      ensures Valid(p, now) && history == old(history)
      ensures SameButFor(p, usage, old(usage)) && SameButFor(p, pruned, old(pruned))
      ensures used == SumAfter(History(p), now - HOUR)
    {
      Prune(p, now);
      AfterAfter(History(p), now - HOUR, now - HOUR);
      used := 0;
      var entries := usage[p];
      for i := 0 to |entries|
        invariant used == Total(entries[..i])
      {
        assert entries[..i + 1][..i] == entries[..i];
        used := used + entries[i].tokens;
      }
      assert entries[..|entries|] == entries;
    }

    method WithinBudget(p: Project, now: real) returns (ok: bool)
      requires Valid(p, now)
      modifies this
      ensures Valid(p, now) && history == old(history)
      ensures SameButFor(p, usage, old(usage)) && SameButFor(p, pruned, old(pruned))
      ensures ok <==> SumAfter(History(p), now - HOUR) < maxTokensPerHour
    {
      var used := TokensUsed(p, now);
      return used < maxTokensPerHour;
    }
  }

  lemma TotalSnoc(h: seq<Usage>, u: Usage)
    ensures Total(h + [u]) == Total(h) + u.tokens
  {
    assert (h + [u])[..|h|] == h;
  }

  // ---------------------------------------------------------------------------------------
  // Gated calls

  /** The tokens of the records in the hour that ends at `now`. */
  function SumWithin(h: seq<Usage>, now: real): nat {
    if h == [] then 0
    else
      var last := h[|h| - 1];
      SumWithin(h[..|h| - 1], now) + (if now - 3600.0 < last.at <= now then last.tokens else 0)
  }

  /** Each record was made by a call that passed the quota gate at the matching time, after the
      earlier calls were done. */
  ghost predicate Gated(h: seq<Usage>, gates: seq<real>, max: int) {
    if h == [] then gates == []
    else
      var n := |h| - 1;
      && |gates| == |h| && Gated(h[..n], gates[..n], max)
      && gates[n] <= h[n].at && SumAfter(h[..n], gates[n] - HOUR) < max && NoLaterThan(h[..n], gates[n])
  }

  predicate NoLaterThan(h: seq<Usage>, now: real) {
    h == [] || h[|h| - 1].at <= now
  }

  lemma GatedSnoc(h: seq<Usage>, gates: seq<real>, max: int, u: Usage, gate: real)
    requires Gated(h, gates, max) && |gates| == |h|
    requires gate <= u.at && SumAfter(h, gate - HOUR) < max && NoLaterThan(h, gate)
    ensures Gated(h + [u], gates + [gate], max)
  {
    assert (h + [u])[..|h|] == h && (gates + [gate])[..|h|] == gates;
  }

  lemma {:induction false} SumAntitone(h: seq<Usage>, now: real, c: real)
    requires c <= now - HOUR
    ensures SumWithin(h, now) <= SumAfter(h, c)
  {
    if h != [] { SumAntitone(h[..|h| - 1], now, c); }
  }

  lemma {:induction false} OldOnlyBefore(h: seq<Usage>, gates: seq<real>, max: int, now: real)
    requires Gated(h, gates, max) && NoLaterThan(h, now - HOUR)
    ensures SumWithin(h, now) == 0
  {
    if h != [] { OldOnlyBefore(h[..|h| - 1], gates[..|h| - 1], max, now); }
  }

  /** The tokens of the last record made by `now`. */
  function LastBy(h: seq<Usage>, now: real): nat {
    if h == [] then 0
    else if h[|h| - 1].at <= now then h[|h| - 1].tokens
    else LastBy(h[..|h| - 1], now)
  }

  /** In any hour the recorded tokens stay below the quota, except for what the last call of
      that hour added on top. */
  lemma {:induction false} AnyHourWithinQuota(h: seq<Usage>, gates: seq<real>, max: int, now: real)
    requires Gated(h, gates, max)
    ensures SumWithin(h, now) == 0 || SumWithin(h, now) <= max - 1 + LastBy(h, now)
  {
    if h != [] {
      var n := |h| - 1;
      if h[n].at > now {
        AnyHourWithinQuota(h[..n], gates[..n], max, now);
      } else if h[n].at <= now - HOUR {
        OldOnlyBefore(h, gates, max, now);
      } else {
        SumAntitone(h[..n], now, gates[n] - HOUR);
      }
    }
  }

  /** What the API does at one attempt: a response with or without usage figures and text, or
      an exception that `_is_retryable_error` accepts or not. A response without text raises an
      error that is not retried. */
  datatype Answer = Answered(usage: Option<(nat, nat)>, hasText: bool) | ApiError(retryable: bool)

  /** The lifetime totals are those of the history. */
  predicate Agree(h: seq<Usage>, t: Totals) {
    t.inputTokens + t.outputTokens == Total(h) && t.calls == |h|
  }

  ghost predicate Ledger(h: seq<Usage>, gates: seq<real>, max: int, now: real) {
    Gated(h, gates, max) && |gates| == |h| && NoLaterThan(h, now)
  }

  /** The call that makes a record passed the gate after the earlier calls were done. */
  predicate Passed(h: seq<Usage>, gate: real, max: int) {
    SumAfter(h, gate - HOUR) < max && NoLaterThan(h, gate)
  }

  lemma LedgerSnoc(h: seq<Usage>, gates: seq<real>, max: int, u: Usage, gate: real)
    requires Ledger(h, gates, max, u.at) && gate <= u.at && Passed(h, gate, max)
    ensures Ledger(h + [u], gates + [gate], max, u.at)
  {
    GatedSnoc(h, gates, max, u, gate);
  }

  function Plus(t: Totals, input: nat, output: nat): Totals {
    Totals(t.inputTokens + input, t.outputTokens + output, t.calls + 1)
  }

  lemma AgreeSnoc(h: seq<Usage>, t: Totals, now: real, input: nat, output: nat)
    requires Agree(h, t)
    ensures Agree(h + [Usage(now, input + output)], Plus(t, input, output))
  {
    TotalSnoc(h, Usage(now, input + output));
  }

  lemma NothingRecorded(max: int, now: real)
    ensures Agree([], Totals(0, 0, 0)) && Ledger([], [], max, now)
  {
  }

  datatype Attempt = Attempt(answer: Answer, duration: real)

  function Delay(attempt: nat): real
    requires attempt >= 1
  {
    if attempt == 1 then RETRY_BASE_DELAY else 2.0 * Delay(attempt - 1)
  }

  /** The end of a call: whether text came back, when, and the usage to record then. */
  datatype Called = Called(ok: bool, end: real, usage: Option<(nat, nat)>)

  /** What the first `k` attempts take. */
  function Durations(api: nat -> Attempt, k: nat): real {
    if k == 0 then 0.0 else Durations(api, k - 1) + api(k).duration
  }

  /** A call ends with attempt `k`: those before it met errors that are retried, it is answered or
      not to be retried, and the delays in between, each twice the one before, add up to the next
      one less the first. */
  ghost predicate EndsAt(api: nat -> Attempt, k: nat, start: real, r: Called) {
    && 1 <= k <= MAX_RETRIES
    && (forall j | 1 <= j < k :: api(j).answer == ApiError(true))
    && r.end == start + Durations(api, k) + (Delay(k) - RETRY_BASE_DELAY)
    && match api(k).answer
       case Answered(usage, hasText) => r.ok == hasText && r.usage == usage
       case ApiError(retryable) => !r.ok && r.usage == None && (k == MAX_RETRIES || !retryable)
  }

  /** There is one way to end. */
  lemma EndIsDetermined(api: nat -> Attempt, start: real, k: nat, r: Called, k': nat, r': Called)
    requires EndsAt(api, k, start, r) && EndsAt(api, k', start, r')
    ensures k == k' && r == r'
  {
  }

  class Insights {
    const tracker: QuotaTracker
    var usageByProject: map<Project, Totals>
    /** When the gate of each record's call was passed. */
    ghost var gates: map<Project, seq<real>>

    /** The two ledgers agree on a project at `now`, however calls overlap. */
    ghost predicate Valid(p: Project, now: real)
      reads this, tracker
    {
      tracker.Valid(p, now) && Agree(tracker.History(p), TotalsOf(p))
    }

    /** Every record of the project was made by a call that passed the gate after the earlier
        calls for it were done. */
    ghost predicate Sequential(p: Project, now: real)
      reads this, tracker
    {
      Ledger(tracker.History(p), GatesOf(p), tracker.maxTokensPerHour, now)
    }

    ghost function GatesOf(p: Project): seq<real>
      reads this
    {
      Lookup(gates, p, [])
    }

    function TotalsOf(p: Project): Totals
      reads this
    {
      Lookup(usageByProject, p, Totals(0, 0, 0))
    }

    constructor (maxTokensPerHour: int)
      ensures fresh(tracker) && tracker.maxTokensPerHour == maxTokensPerHour
      ensures forall p, now :: Valid(p, now) && Sequential(p, now)
    {
      tracker := new QuotaTracker(maxTokensPerHour);
      usageByProject, gates := map[], map[];
      new;
      forall p, now ensures Valid(p, now) && Sequential(p, now) { EmptyIsValid(p, now); }
    }

    /** Nothing has been recorded. */
    lemma EmptyIsValid(p: Project, now: real)
      requires tracker.history == map[] && usageByProject == map[] && gates == map[] && tracker.Valid(p, now)
      ensures Valid(p, now) && Sequential(p, now)
    {
      assert tracker.History(p) == [] && GatesOf(p) == [] && TotalsOf(p) == Totals(0, 0, 0);
      NothingRecorded(tracker.maxTokensPerHour, now);
    }

    lemma Later(p: Project, now: real, later: real)
      requires Valid(p, now) && now <= later
      ensures Valid(p, later) && (Sequential(p, now) ==> Sequential(p, later))
    {
    }

    /** Both ledgers take the usage, whatever other calls have recorded since the gate; records
        stay gated when there were none. */
    method RecordUsage(p: Project, input: nat, output: nat, now: real, ghost gate: real)
      requires Valid(p, now)
      modifies this, tracker
      ensures Valid(p, now)
      ensures tracker.history == old(tracker.history)[p := old(tracker.History(p)) + [Usage(now, input + output)]]
      ensures SameButFor(p, usageByProject, old(usageByProject))
      ensures TotalsOf(p).inputTokens == old(TotalsOf(p)).inputTokens + input && TotalsOf(p).outputTokens == old(TotalsOf(p)).outputTokens + output
      ensures TotalsOf(p).calls == old(TotalsOf(p)).calls + 1
      ensures SameButFor(p, tracker.usage, old(tracker.usage)) && SameButFor(p, tracker.pruned, old(tracker.pruned))
      ensures old(Sequential(p, now)) && gate <= now && Passed(old(tracker.History(p)), gate, tracker.maxTokensPerHour) ==> Sequential(p, now)
    {
      ghost var h, g, max, u := tracker.History(p), GatesOf(p), tracker.maxTokensPerHour, Usage(now, input + output);
      ghost var gated := Sequential(p, now) && gate <= now && Passed(h, gate, max);
      var t := TotalsOf(p);
      AgreeSnoc(h, t, now, input, output);
      if gated { LedgerSnoc(h, g, max, u, gate); }
      tracker.Record(p, input + output, now);
      Charge(p, input, output, gate);
      assert tracker.History(p) == h + [u];
    }

    /** The lifetime ledger of the project, and the gate that its call passed. */
    method Charge(p: Project, input: nat, output: nat, ghost gate: real)
      modifies this`usageByProject, this`gates
      ensures TotalsOf(p) == Plus(old(TotalsOf(p)), input, output) && GatesOf(p) == old(GatesOf(p)) + [gate]
      ensures SameButFor(p, usageByProject, old(usageByProject))
    {
      usageByProject := usageByProject[p := Plus(TotalsOf(p), input, output)];
      gates := gates[p := GatesOf(p) + [gate]];
    }

    /** `_call_claude`, sequentially: whether text came back, and when it returned. It records
        the usage of an answered attempt, and only after the gate let it pass. */
    method CallClaude(p: Project, configured: bool, api: nat -> Attempt, start: real) returns (ok: bool, end: real)
      requires Valid(p, start) && Sequential(p, start) && forall k :: api(k).duration >= 0.0
      modifies this, tracker
      ensures Valid(p, end) && Sequential(p, end) && end >= start
      ensures SameButFor(p, usageByProject, old(usageByProject))
      ensures SameButFor(p, tracker.usage, old(tracker.usage)) && SameButFor(p, tracker.pruned, old(tracker.pruned))
      ensures if configured && SumAfter(old(tracker.History(p)), start - HOUR) < tracker.maxTokensPerHour then
                exists k, called :: EndsAt(api, k, start, called) && Ended(old(tracker.history), p, called, ok, end, tracker.history)
              else
                !ok && end == start && tracker.history == old(tracker.history)
    {
      ok, end := false, start;
      if !configured {
        return;
      }
      var within := tracker.WithinBudget(p, start);
      if within {
        ok, end := AttemptCalls(p, api, start);
      }
    }

    /** Behind the gate. */
    method AttemptCalls(p: Project, api: nat -> Attempt, start: real) returns (ok: bool, end: real)
      requires Valid(p, start) && Sequential(p, start) && forall k :: api(k).duration >= 0.0
      requires SumAfter(tracker.History(p), start - HOUR) < tracker.maxTokensPerHour
      modifies this, tracker
      ensures Valid(p, end) && Sequential(p, end) && end >= start
      ensures SameButFor(p, usageByProject, old(usageByProject))
      ensures SameButFor(p, tracker.usage, old(tracker.usage)) && SameButFor(p, tracker.pruned, old(tracker.pruned))
      ensures exists k, called :: EndsAt(api, k, start, called) && Ended(old(tracker.history), p, called, ok, end, tracker.history)
    {
      assert Passed(tracker.History(p), start, tracker.maxTokensPerHour);
      var usage;
      ghost var k;
      ok, end, usage, k := Retry(api, start);
      Later(p, start, end);
      if usage.Some? {
        RecordUsage(p, usage.value.0, usage.value.1, end, start);
      }
      assert Ended(old(tracker.history), p, Called(ok, end, usage), ok, end, tracker.history);
    }

    /** The retry loop, which ends with the usage to record. */
    static method Retry(api: nat -> Attempt, start: real) returns (ok: bool, end: real, usage: Option<(nat, nat)>, ghost k: nat)
      requires forall k :: api(k).duration >= 0.0
      ensures EndsAt(api, k, start, Called(ok, end, usage)) && end >= start
    {
      ok, end, usage := false, start, None;
      var attempt: nat := 1;
      while true
        invariant 1 <= attempt <= MAX_RETRIES && end >= start && !ok && usage == None
        invariant forall j | 1 <= j < attempt :: api(j).answer == ApiError(true)
        invariant end == start + Durations(api, attempt - 1) + (Delay(attempt) - RETRY_BASE_DELAY)
        decreases MAX_RETRIES - attempt
      {
        var a := api(attempt);
        k, end := attempt, end + a.duration;
        match a.answer {
          case Answered(figures, hasText) =>
            return hasText, end, figures, k;
          case ApiError(retryable) =>
            if attempt >= MAX_RETRIES || !retryable {
              return;
            }
            DelayPositive(attempt);
            end := end + Delay(attempt);
        }
        attempt := attempt + 1;
      }
    }
  }

  /** What a call leaves. */
  predicate Ended(history: map<Project, seq<Usage>>, p: Project, called: Called, ok: bool, end: real, history': map<Project, seq<Usage>>) {
    ok == called.ok && end == called.end && history' == Recorded(history, p, called)
  }

  /** The records after a call. */
  function Recorded(history: map<Project, seq<Usage>>, p: Project, called: Called): map<Project, seq<Usage>> {
    match called.usage
    case None => history
    case Some(u) => history[p := Lookup(history, p, []) + [Usage(called.end, u.0 + u.1)]]
  }

  lemma {:induction false} DelayPositive(attempt: nat)
    requires attempt >= 1
    ensures Delay(attempt) > 0.0
  {
    if attempt > 1 { DelayPositive(attempt - 1); }
  }

  /** When no record is later than `now`, the tokens used are those of the hour that ends at `now`,
      its beginning excluded. */
  lemma {:induction false} UsedIsLastHour(h: seq<Usage>, now: real)
    requires forall u | u in h :: u.at <= now
    ensures SumAfter(h, now - HOUR) == SumWithin(h, now)
  {
    if h != [] {
      assert h[|h| - 1] in h && forall u | u in h[..|h| - 1] :: u in h;
      UsedIsLastHour(h[..|h| - 1], now);
    }
  }
}
