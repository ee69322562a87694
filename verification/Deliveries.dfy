/** What the stream machines share: positions, the fate of a command sent to Redis, and how
    often a position occurs in a list of them. */
module Deliveries {
  /** The position of a message in a stream. */
  type Id = nat

  /** How a command to Redis ends: it works, or it raises before or after taking effect. */
  datatype Fate = Works | RaisesBefore | RaisesAfter

  predicate TakesEffect(f: Fate) { f != RaisesBefore }

  function Range(a: nat, n: nat): seq<Id> { seq(n, i requires 0 <= i < n => a + i) }

  function Occurrences(s: seq<Id>, id: Id): nat { multiset(s)[id] }

  lemma {:induction false} RangeOnce(a: nat, n: nat, id: Id)
    ensures Occurrences(Range(a, n), id) == if a <= id < a + n then 1 else 0
    ensures id in Range(a, n) <==> a <= id < a + n
  {
    if n > 0 {
      RangeOnce(a, n - 1, id);
      assert Range(a, n) == Range(a, n - 1) + [a + n - 1];
    }
  }

  lemma CountConcat(a: seq<Id>, b: seq<Id>, id: Id)
    ensures Occurrences(a + b, id) == Occurrences(a, id) + Occurrences(b, id)
  {
  }

  lemma CountHead(s: seq<Id>, id: Id)
    requires s != []
    ensures Occurrences(s, id) == (if s[0] == id then 1 else 0) + Occurrences(s[1..], id)
  {
    assert s == [s[0]] + s[1..];
  }

  lemma CountSnoc(s: seq<Id>, x: Id, id: Id)
    ensures Occurrences(s + [x], id) == Occurrences(s, id) + (if x == id then 1 else 0)
  {
  }

  ghost predicate Distinct(s: seq<Id>) { forall i, j | 0 <= i < j < |s| :: s[i] != s[j] }

  lemma CountedTwice(s: seq<Id>, i: nat, j: nat)
    requires i < j < |s| && s[i] == s[j]
    ensures Occurrences(s, s[i]) >= 2
  {
    assert s == s[..j] + ([s[j]] + s[j + 1..]);
    CountConcat(s[..j], [s[j]] + s[j + 1..], s[i]);
    assert s[..j][i] in multiset(s[..j]);
    CountConcat([s[j]], s[j + 1..], s[i]);
  }

  lemma AtMostOneIsDistinct(s: seq<Id>)
    requires forall id: Id :: Occurrences(s, id) <= 1
    ensures Distinct(s)
  {
    forall i, j | 0 <= i < j < |s| ensures s[i] != s[j] {
      if s[i] == s[j] { CountedTwice(s, i, j); }
    }
  }
}
