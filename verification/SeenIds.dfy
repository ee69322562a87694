/** `BaseCollector._is_duplicate` of `src/collectors/base.py`: a set and a deque that remember
    the most recently admitted source ids. */
module SeenIds {
  import opened Wrappers

  type Id = string

  /** The ids among the last `cap` admitted ones. */
  function Window(admitted: seq<Id>, cap: nat): seq<Id> {
    if |admitted| <= cap then admitted else admitted[|admitted| - cap..]
  }

  ghost predicate NoRepeats(s: seq<Id>) {
    forall i, j | 0 <= i < j < |s| :: s[i] != s[j]
  }

  ghost function Elements(s: seq<Id>): set<Id> { set x | x in s }

  class DuplicateFilter {
    const maxSeenIds: nat
    var seen: set<Id>
    var order: seq<Id>
    /** Every id ever admitted, oldest first. */
    ghost var admitted: seq<Id>

    ghost predicate Valid()
      reads this
    {
      && order == Window(admitted, maxSeenIds)
      && NoRepeats(order)
      && seen == Elements(order)
      && |order| <= maxSeenIds
    }

    constructor (maxSeenIds: nat)
      ensures Valid() && admitted == [] && this.maxSeenIds == maxSeenIds
    {
      this.maxSeenIds := maxSeenIds;
      seen, order, admitted := {}, [], [];
    }

    /** Reports a duplicate exactly for an id among the last `maxSeenIds` admitted ids, and
        admits every other one. `None` is the IndexError of `popleft` on an empty deque, which
        happens exactly when the capacity is zero. */
    method IsDuplicate(id: Id) returns (r: Option<bool>)
      requires Valid()
      modifies this
      ensures Valid()
      ensures r.None? <==> maxSeenIds == 0
      ensures r.Some? ==> (r.value <==> id in Window(old(admitted), maxSeenIds))
      ensures admitted == if r == Some(false) then old(admitted) + [id] else old(admitted)
    {
      if id in seen {
        return Some(true);
      }
      CardinalityOfDistinct(order);
      if |seen| >= maxSeenIds {
        if order == [] {
          return None;
        }
        var oldest := order[0];
        seen := seen - {oldest};
        order := order[1..];
      }
      seen := seen + {id};
      order := order + [id];
      admitted := admitted + [id];
      return Some(false);
    }

    /** A whole stream of ids through the filter. */
    method FilterAll(ids: seq<Id>) returns (flags: seq<bool>)
      requires Valid() && admitted == [] && maxSeenIds >= 1
      modifies this
      ensures Valid() && flags == Flags(ids, maxSeenIds)
    {
      flags := [];
      for i := 0 to |ids|
        invariant Valid() && admitted == Admitted(ids[..i], maxSeenIds)
        invariant flags == Flags(ids[..i], maxSeenIds)
      {
        assert ids[..i + 1][..i] == ids[..i];
        var r := IsDuplicate(ids[i]);
        flags := flags + [r.value];
      }
      assert ids[..|ids|] == ids;
    }
  }

  lemma {:induction false} CardinalityOfDistinct(s: seq<Id>)
    requires NoRepeats(s)
    ensures |Elements(s)| == |s|
  {
    if s != [] {
      var n := |s| - 1;
      CardinalityOfDistinct(s[..n]);
      assert Elements(s) == Elements(s[..n]) + {s[n]};
    }
  }

  /** The ids admitted from a stream, given that capacity. */
  function Admitted(ids: seq<Id>, cap: nat): seq<Id> {
    if ids == [] then []
    else
      var n := |ids| - 1;
      var before := Admitted(ids[..n], cap);
      if ids[n] in Window(before, cap) then before else before + [ids[n]]
  }

  /** The flags reported along a stream. */
  function Flags(ids: seq<Id>, cap: nat): seq<bool> {
    if ids == [] then []
    else
      var n := |ids| - 1;
      Flags(ids[..n], cap) + [ids[n] in Window(Admitted(ids[..n], cap), cap)]
  }

  /** Exact deduplication: an id is flagged exactly when it occurred before. */
  ghost predicate IsFirstOccurrenceDedup(ids: seq<Id>, flags: seq<bool>) {
    |flags| == |ids| &&
    forall i | 0 <= i < |ids| :: flags[i] <==> ids[i] in ids[..i]
  }

  lemma Snoc(front: seq<Id>, x: Id, cap: nat)
    ensures Admitted(front + [x], cap) ==
            if x in Window(Admitted(front, cap), cap) then Admitted(front, cap) else Admitted(front, cap) + [x]
    ensures Flags(front + [x], cap) == Flags(front, cap) + [x in Window(Admitted(front, cap), cap)]
  {
    assert (front + [x])[..|front|] == front;
  }

  lemma {:induction false} OneFlagEach(ids: seq<Id>, cap: nat)
    ensures |Flags(ids, cap)| == |ids|
  {
    if ids != [] { OneFlagEach(ids[..|ids| - 1], cap); }
  }

  lemma FrontAndLast(s: seq<Id>)
    requires s != []
    ensures s[..|s| - 1] + [s[|s| - 1]] == s
  {
  }

  lemma PrefixOfFront(s: seq<Id>, i: nat)
    requires i < |s|
    ensures s[..|s| - 1][..i] == s[..i]
  {
  }

  /** The flag of a position depends only on the stream up to there. */
  lemma {:induction false} FlagAt(ids: seq<Id>, cap: nat, i: nat)
    requires i < |ids|
    ensures |Flags(ids, cap)| == |ids|
    ensures Flags(ids, cap)[i] <==> ids[i] in Window(Admitted(ids[..i], cap), cap)
  {
    var front, x := ids[..|ids| - 1], ids[|ids| - 1];
    FrontAndLast(ids);
    Snoc(front, x, cap);
    OneFlagEach(front, cap);
    if i < |front| {
      FlagAt(front, cap, i);
      PrefixOfFront(ids, i);
    }
  }

  /** With enough room nothing is evicted, so the admitted ids are those that occurred. */
  lemma {:induction false} AdmittedWithinCapacity(ids: seq<Id>, cap: nat)
    requires |Elements(ids)| <= cap
    ensures NoRepeats(Admitted(ids, cap)) && Elements(Admitted(ids, cap)) == Elements(ids)
    ensures Window(Admitted(ids, cap), cap) == Admitted(ids, cap)
  {
    if ids != [] {
      var n := |ids| - 1;
      var front, x := ids[..n], ids[n];
      assert ids == front + [x];
      PrefixElements(front, x);
      AdmittedWithinCapacity(front, cap);
      Snoc(front, x, cap);
      assert x in Elements(Admitted(front, cap)) <==> x in Admitted(front, cap);
    }
    CardinalityOfDistinct(Admitted(ids, cap));
  }

  lemma PrefixElements(front: seq<Id>, x: Id)
    ensures Elements(front + [x]) == Elements(front) + {x}
    ensures |Elements(front)| <= |Elements(front + [x])|
  {
    assert Elements(front + [x]) == Elements(front) + {x};
    if x in Elements(front) {
      assert Elements(front) + {x} == Elements(front);
    }
  }

  /** On a stream with no more distinct ids than the capacity the filter is exact ... */
  lemma ExactWithinCapacity(ids: seq<Id>, cap: nat)
    requires |Elements(ids)| <= cap
    ensures IsFirstOccurrenceDedup(ids, Flags(ids, cap))
  {
    OneFlagEach(ids, cap);
    forall i | 0 <= i < |ids| ensures Flags(ids, cap)[i] <==> ids[i] in ids[..i] {
      FlagAt(ids, cap, i);
      FewerInPrefix(ids, i);
      AdmittedWithinCapacity(ids[..i], cap);
      assert ids[i] in Elements(Admitted(ids[..i], cap)) <==> ids[i] in Elements(ids[..i]);
    }
  }

  lemma {:induction false} FewerInPrefix(ids: seq<Id>, i: nat)
    requires i <= |ids|
    ensures |Elements(ids[..i])| <= |Elements(ids)|
    decreases |ids| - i
  {
    if i == |ids| {
      assert ids[..i] == ids;
    } else {
      assert ids[..i + 1] == ids[..i] + [ids[i]];
      PrefixElements(ids[..i], ids[i]);
      var longer := ids[..i + 1];
      FewerInPrefix(ids, i + 1);
    }
  }

  /** ... and the bound is sharp: any `cap + 1` distinct ids followed by the first of them
      again make it miss a repetition. */
  lemma MissesBeyondCapacity(distinct: seq<Id>, cap: nat)
    requires NoRepeats(distinct) && |distinct| == cap + 1
    ensures !IsFirstOccurrenceDedup(distinct + [distinct[0]], Flags(distinct + [distinct[0]], cap))
  {
    var ids := distinct + [distinct[0]];
    assert ids[..cap + 1] == distinct;
    AllNewAdmitted(distinct, cap);
    FlagAt(ids, cap, cap + 1);
    assert distinct[0] !in distinct[1..];
    assert ids[cap + 1] == distinct[0] && distinct[0] in distinct;
  }

  /** How many of the flags `m..n` admit an id. */
  function Unflagged(flags: seq<bool>, m: nat, n: nat): nat
    requires m <= n <= |flags|
  {
    if m == n then 0 else Unflagged(flags, m, n - 1) + if flags[n - 1] then 0 else 1
  }

  lemma AdmittedNext(ids: seq<Id>, cap: nat, n: nat)
    requires n < |ids|
    ensures var before := Admitted(ids[..n], cap);
            Admitted(ids[..n + 1], cap) == if ids[n] in Window(before, cap) then before else before + [ids[n]]
  {
    assert ids[..n + 1] == ids[..n] + [ids[n]];
    Snoc(ids[..n], ids[n], cap);
  }

  /** `now` has `count` ids more than `older`, and `x` is none of them. */
  ghost predicate Grown(older: seq<Id>, now: seq<Id>, x: Id, count: nat) {
    older <= now && |now| == |older| + count && x !in now[|older|..]
  }

  lemma GrownNext(older: seq<Id>, now: seq<Id>, x: Id, count: nat, y: Id)
    requires Grown(older, now, x, count) && y != x
    ensures Grown(older, now + [y], x, count + 1)
  {
    assert (now + [y])[|older|..] == now[|older|..] + [y];
  }

  /** `states[k]` is what the ids before position `k` have left admitted. */
  ghost predicate Admits(ids: seq<Id>, flags: seq<bool>, states: seq<seq<Id>>) {
    |flags| == |ids| == |states| - 1 &&
    forall k | 0 <= k < |ids| :: states[k + 1] == if flags[k] then states[k] else states[k] + [ids[k]]
  }

  lemma States(ids: seq<Id>, cap: nat) returns (states: seq<seq<Id>>)
    ensures Admits(ids, Flags(ids, cap), states)
    ensures forall k | 0 <= k < |ids| :: Flags(ids, cap)[k] <==> ids[k] in Window(states[k], cap)
  {
    OneFlagEach(ids, cap);
    var flags := Flags(ids, cap);
    states := seq(|ids| + 1, k requires 0 <= k <= |ids| => Admitted(ids[..k], cap));
    forall k | 0 <= k < |ids|
      ensures flags[k] <==> ids[k] in Window(states[k], cap)
      ensures states[k + 1] == if flags[k] then states[k] else states[k] + [ids[k]]
    {
      FlagAt(ids, cap, k);
      AdmittedNext(ids, cap, k);
    }
  }

  lemma {:induction false} AdmittedSince(ids: seq<Id>, flags: seq<bool>, states: seq<seq<Id>>, x: Id, m: nat, n: nat)
    requires Admits(ids, flags, states) && m <= n <= |ids| && forall k | m <= k < n :: ids[k] != x
    ensures Grown(states[m], states[n], x, Unflagged(flags, m, n))
  {
    if m < n {
      AdmittedSince(ids, flags, states, x, m, n - 1);
      assert states[n - 1 + 1] == if flags[n - 1] then states[n - 1] else states[n - 1] + [ids[n - 1]];
      GrownNext(states[m], states[n - 1], x, Unflagged(flags, m, n - 1), ids[n - 1]);
    }
  }

  /** An admitted id that comes again is flagged exactly if at most as many ids as the capacity,
      counting itself, were admitted from then on: the oldest one is evicted first. */
  lemma FlaggedExactlyWhenRecent(ids: seq<Id>, cap: nat, i: nat, j: nat)
    requires cap >= 1 && i < j < |ids| && ids[j] == ids[i] && forall k | i < k < j :: ids[k] != ids[i]
    ensures var flags := Flags(ids, cap);
            |flags| == |ids| && (!flags[i] ==> (flags[j] <==> Unflagged(flags, i, j) <= cap))
  {
    var flags := Flags(ids, cap);
    var states := States(ids, cap);
    if !flags[i] {
      assert states[i + 1] == states[i] + [ids[i]];
      AdmittedSince(ids, flags, states, ids[i], i + 1, j);
      UnflaggedHead(flags, i, j);
      WindowTells(states[i], ids[i], states[j], Unflagged(flags, i + 1, j), cap);
    }
  }

  lemma {:induction false} UnflaggedHead(flags: seq<bool>, m: nat, n: nat)
    requires m < n <= |flags| && !flags[m]
    ensures Unflagged(flags, m, n) == 1 + Unflagged(flags, m + 1, n)
  {
    if m + 1 < n { UnflaggedHead(flags, m, n - 1); }
  }

  lemma WindowTells(older: seq<Id>, x: Id, now: seq<Id>, count: nat, cap: nat)
    requires cap >= 1 && Grown(older + [x], now, x, count)
    ensures x in Window(now, cap) <==> count < cap
  {
    var window := Window(now, cap);
    if count < cap {
      assert now[|older|] == x && window[|window| - count - 1] == x;
    } else {
      assert window == now[|older| + 1..][count - cap..];
    }
  }

  /** Exact on all streams with at most `d` distinct ids. */
  ghost predicate ExactUpTo(d: nat, cap: nat) {
    forall ids: seq<Id> | |Elements(ids)| <= d :: IsFirstOccurrenceDedup(ids, Flags(ids, cap))
  }

  lemma ExactExactlyWithinCapacity(d: nat, cap: nat)
    ensures ExactUpTo(d, cap) <==> d <= cap
  {
    if d <= cap {
      forall ids: seq<Id> | |Elements(ids)| <= d ensures IsFirstOccurrenceDedup(ids, Flags(ids, cap)) {
        ExactWithinCapacity(ids, cap);
      }
    } else {
      var distinct := SomeDistinct(cap + 1);
      MissesBeyondCapacity(distinct, cap);
      CardinalityOfDistinct(distinct);
      assert Elements(distinct + [distinct[0]]) == Elements(distinct);
    }
  }

  lemma {:induction false} SomeDistinct(n: nat) returns (s: seq<Id>)
    ensures |s| == n && NoRepeats(s) && forall x | x in s :: |x| < n
  {
    if n == 0 {
      s := [];
    } else {
      s := SomeDistinct(n - 1);
      s := s + [seq(n - 1, _ => 'a')];
    }
  }

  lemma LastIsNew(s: seq<Id>)
    requires NoRepeats(s) && s != []
    ensures NoRepeats(s[..|s| - 1]) && s[|s| - 1] !in s[..|s| - 1]
  {
  }

  lemma NewAdmitted(front: seq<Id>, x: Id, cap: nat)
    requires Admitted(front, cap) == front && x !in front
    ensures Admitted(front + [x], cap) == front + [x]
  {
    Snoc(front, x, cap);
  }

  lemma {:induction false} AllNewAdmitted(s: seq<Id>, cap: nat)
    requires NoRepeats(s)
    ensures Admitted(s, cap) == s
  {
    if s != [] {
      var front, x := s[..|s| - 1], s[|s| - 1];
      LastIsNew(s);
      AllNewAdmitted(front, cap);
      NewAdmitted(front, x, cap);
      FrontAndLast(s);
    }
  }
}
