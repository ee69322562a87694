/** `useUndoRedo` of `frontend/src/hooks/useUndoRedo.ts`: a history whose past is cut to the
    last MAX_HISTORY values, compared with the history that never forgets. */
module UndoRedo {
  import opened Wrappers

  const MAX_HISTORY: nat := 50

  datatype History<T> = History(past: seq<T>, present: T, future: seq<T>)

  datatype Op<T> = Set(newState: T) | Undo | Redo

  /** `slice(-n)`, or no cut at all. */
  function Keep<T>(limit: Option<nat>, s: seq<T>): seq<T> {
    if limit.Some? && |s| > limit.value then s[|s| - limit.value..] else s
  }

  /** One operation of a hook whose past is limited. `shown` is the present value captured by
      the render that the operation belongs to. */
  function Step<T>(limit: Option<nat>, h: History<T>, shown: T, op: Op<T>): History<T> {
    match op
    case Set(x) => History(Keep(limit, h.past + [shown]), x, [])
    case Undo =>
      if h.past == [] then h
      else History(h.past[..|h.past| - 1], h.past[|h.past| - 1], [shown] + h.future)
    case Redo =>
      if h.future == [] then h
      else History(h.past + [shown], h.future[0], h.future[1..])
  }

  /** Operations with the presents that their renders captured, however many share a render. */
  function RunShown<T>(limit: Option<nat>, initial: T, ops: seq<(T, Op<T>)>): History<T> {
    if ops == [] then History([], initial, [])
    else
      var (shown, op) := ops[|ops| - 1];
      Step(limit, RunShown(limit, initial, ops[..|ops| - 1]), shown, op)
  }

  /** One operation per render: every operation sees the present the previous one left. */
  function Run<T>(limit: Option<nat>, initial: T, ops: seq<Op<T>>): History<T> {
    if ops == [] then History([], initial, [])
    else
      var h := Run(limit, initial, ops[..|ops| - 1]);
      Step(limit, h, h.present, ops[|ops| - 1])
  }

  function Bounded<T>(initial: T, ops: seq<Op<T>>): History<T> { Run(Some(MAX_HISTORY), initial, ops) }

  function Unbounded<T>(initial: T, ops: seq<Op<T>>): History<T> { Run(None, initial, ops) }

  class Hook<T> {
    var past: seq<T>
    var present: T
    var future: seq<T>

    function View(): History<T>
      reads this
    {
      History(past, present, future)
    }

    constructor (initial: T)
      ensures View() == History([], initial, [])
    {
      past, present, future := [], initial, [];
    }

    method Set(shown: T, newState: T)
      modifies this
      ensures View() == Step(Some(MAX_HISTORY), old(View()), shown, Op.Set(newState))
    {
      var longer := past + [shown];
      past := if |longer| > MAX_HISTORY then longer[|longer| - MAX_HISTORY..] else longer;
      future := [];
      present := newState;
    }

    method Undo(shown: T)
      modifies this
      ensures View() == Step(Some(MAX_HISTORY), old(View()), shown, Op.Undo)
    {
      if |past| == 0 { return; }
      var previous := past[|past| - 1];
      past := past[..|past| - 1];
      future := [shown] + future;
      present := previous;
    }

    method Redo(shown: T)
      modifies this
      ensures View() == Step(Some(MAX_HISTORY), old(View()), shown, Op.Redo)
    {
      if |future| == 0 { return; }
      var next := future[0];
      future := future[1..];
      past := past + [shown];
      present := next;
    }
  }

  /** Redo appends to the past without cutting it, yet the whole history never holds more than
      50 values beside the present one, whatever present each operation captured. */
  lemma {:induction false} HistoryIsBounded<T>(initial: T, ops: seq<(T, Op<T>)>)
    ensures var h := RunShown(Some(MAX_HISTORY), initial, ops); |h.past| + |h.future| <= 50
  {
    if ops != [] { HistoryIsBounded(initial, ops[..|ops| - 1]); }
  }

  ghost predicate IsSuffix<T>(s: seq<T>, t: seq<T>) {
    |s| <= |t| && s == t[|t| - |s|..]
  }

  /** The two machines show the same and differ only in how far back they remember. */
  ghost predicate Similar<T>(b: History<T>, u: History<T>) {
    b.present == u.present && b.future == u.future && IsSuffix(b.past, u.past)
  }

  /** An undo that the limited history has to refuse although there was something to undo. */
  ghost predicate Refused<T(!new)>(initial: T, ops: seq<Op<T>>, i: nat)
    requires i < |ops|
  {
    ops[i].Undo? && Bounded(initial, ops[..i]).past == [] && Unbounded(initial, ops[..i]).past != []
  }

  ghost predicate AlwaysSimilar<T(!new)>(initial: T, ops: seq<Op<T>>) {
    forall i | 0 <= i <= |ops| :: Similar(Bounded(initial, ops[..i]), Unbounded(initial, ops[..i]))
  }

  /** The limited hook behaves like the unlimited one along a whole run exactly when no undo
      of the run is refused. */
  lemma SimilarExactlyWhenNothingRefused<T(!new)>(initial: T, ops: seq<Op<T>>)
    ensures AlwaysSimilar(initial, ops) <==> forall i | 0 <= i < |ops| :: !Refused(initial, ops, i)
  {
    if i :| 0 <= i < |ops| && Refused(initial, ops, i) {
      RunSnoc(Some(MAX_HISTORY), initial, ops, i);
      RunSnoc(None, initial, ops, i);
      var b, u := Bounded(initial, ops[..i]), Unbounded(initial, ops[..i]);
      if Similar(b, u) { RefusalShows(b, u); }
      assert !Similar(Bounded(initial, ops[..i]), Unbounded(initial, ops[..i]))
          || !Similar(Bounded(initial, ops[..i + 1]), Unbounded(initial, ops[..i + 1]));
    }
    if forall i | 0 <= i < |ops| :: !Refused(initial, ops, i) {
      forall i | 0 <= i <= |ops| ensures Similar(Bounded(initial, ops[..i]), Unbounded(initial, ops[..i])) {
        SimilarUpTo(initial, ops, i);
      }
    }
  }

  lemma {:induction false} SimilarUpTo<T(!new)>(initial: T, ops: seq<Op<T>>, n: nat)
    requires n <= |ops| && forall i | 0 <= i < n :: !Refused(initial, ops, i)
    ensures Similar(Bounded(initial, ops[..n]), Unbounded(initial, ops[..n]))
  {
    if n > 0 {
      SimilarUpTo(initial, ops, n - 1);
      RunSnoc(Some(MAX_HISTORY), initial, ops, n - 1);
      RunSnoc(None, initial, ops, n - 1);
      assert !Refused(initial, ops, n - 1);
      StepKeepsSimilar(Bounded(initial, ops[..n - 1]), Unbounded(initial, ops[..n - 1]), ops[n - 1]);
    }
  }

  lemma RefusalShows<T>(b: History<T>, u: History<T>)
    requires b.past == [] && u.past != [] && Similar(b, u)
    ensures !Similar(Step(Some(MAX_HISTORY), b, b.present, Undo), Step(None, u, u.present, Undo))
  {
    assert |([u.present] + u.future)| == |u.future| + 1;
  }

  lemma StepKeepsSimilar<T>(b: History<T>, u: History<T>, op: Op<T>)
    requires Similar(b, u) && (op.Undo? && b.past == [] ==> u.past == [])
    ensures Similar(Step(Some(MAX_HISTORY), b, b.present, op), Step(None, u, u.present, op))
  {
    var b', u' := Step(Some(MAX_HISTORY), b, b.present, op), Step(None, u, u.present, op);
    assert b'.past == u'.past[|u'.past| - |b'.past|..];
  }

  lemma RunSnoc<T>(limit: Option<nat>, initial: T, ops: seq<Op<T>>, i: nat)
    requires i < |ops|
    ensures var h := Run(limit, initial, ops[..i]); Run(limit, initial, ops[..i + 1]) == Step(limit, h, h.present, ops[i])
  {
    assert ops[..i + 1][..i] == ops[..i];
  }

  /** A caller that undoes only while `canUndo` holds never meets the limit. */
  lemma SimilarUnderCanUndo<T(!new)>(initial: T, ops: seq<Op<T>>)
    requires forall i | 0 <= i < |ops| && ops[i].Undo? :: Bounded(initial, ops[..i]).past != []
    ensures AlwaysSimilar(initial, ops)
  {
    SimilarExactlyWhenNothingRefused(initial, ops);
  }

  function Times<T>(op: Op<T>, k: nat): seq<Op<T>> { seq(k, _ => op) }

  /** The limit is reached by 51 changes followed by 51 undos. */
  lemma FiftyFirstUndoRefused()
    ensures !AlwaysSimilar(0, Times(Set(1), 51) + Times(Undo, 51))
  {
    var ops := Times(Set(1), 51) + Times(Undo, 51);
    AfterSets(ops, 51);
    AfterUndos(ops, 50);
    assert Refused(0, ops, 101);
    SimilarExactlyWhenNothingRefused(0, ops);
  }

  lemma {:induction false} AfterSets(ops: seq<Op<int>>, n: nat)
    requires n <= 51 && ops == Times(Set(1), 51) + Times(Undo, 51)
    ensures |Bounded(0, ops[..n]).past| == if n <= 50 then n else 50
    ensures |Unbounded(0, ops[..n]).past| == n
  {
    if n > 0 {
      AfterSets(ops, n - 1);
      RunSnoc(Some(MAX_HISTORY), 0, ops, n - 1);
      RunSnoc(None, 0, ops, n - 1);
    }
  }

  lemma {:induction false} AfterUndos(ops: seq<Op<int>>, k: nat)
    requires k <= 50 && ops == Times(Set(1), 51) + Times(Undo, 51)
    ensures |Bounded(0, ops[..51 + k]).past| == 50 - k && |Unbounded(0, ops[..51 + k]).past| == 51 - k
  {
    if k == 0 {
      AfterSets(ops, 51);
    } else {
      AfterUndos(ops, k - 1);
      RunSnoc(Some(MAX_HISTORY), 0, ops, 50 + k);
      RunSnoc(None, 0, ops, 50 + k);
    }
  }

  /** `k` operations of one kind. */
  function Repeat<T>(limit: Option<nat>, h: History<T>, op: Op<T>, k: nat): History<T> {
    if k == 0 then h
    else
      var h' := Repeat(limit, h, op, k - 1);
      Step(limit, h', h'.present, op)
  }

  /** `k` undos followed by `k` redos restore the history, and so do `k` redos followed by `k`
      undos, as long as there is enough to undo or redo. */
  lemma UndoRedoRestores<T>(limit: Option<nat>, h: History<T>, k: nat)
    ensures k <= |h.past| ==> Repeat(limit, Repeat(limit, h, Undo, k), Redo, k) == h
    ensures k <= |h.future| ==> Repeat(limit, Repeat(limit, h, Redo, k), Undo, k) == h
  {
    if k <= |h.past| { UndosUndone(limit, h, k); }
    if k <= |h.future| { RedosUndone(limit, h, k); }
  }

  lemma {:induction false} UndosUndone<T>(limit: Option<nat>, h: History<T>, k: nat)
    requires k <= |h.past|
    ensures Repeat(limit, Repeat(limit, h, Undo, k), Redo, k) == h
    ensures |Repeat(limit, h, Undo, k).past| == |h.past| - k
  {
    if k > 0 {
      UndosUndone(limit, h, k - 1);
      var u := Repeat(limit, h, Undo, k - 1);
      var v := Step(limit, u, u.present, Undo);
      assert Step(limit, v, v.present, Redo) == u;
      FirstOutside(limit, v, Redo, k);
    }
  }

  lemma {:induction false} RedosUndone<T>(limit: Option<nat>, h: History<T>, k: nat)
    requires k <= |h.future|
    ensures Repeat(limit, Repeat(limit, h, Redo, k), Undo, k) == h
    ensures |Repeat(limit, h, Redo, k).future| == |h.future| - k
  {
    if k > 0 {
      RedosUndone(limit, h, k - 1);
      var u := Repeat(limit, h, Redo, k - 1);
      var v := Step(limit, u, u.present, Redo);
      assert Step(limit, v, v.present, Undo) == u;
      FirstOutside(limit, v, Undo, k);
    }
  }

  lemma {:induction false} FirstOutside<T>(limit: Option<nat>, h: History<T>, op: Op<T>, k: nat)
    requires k > 0
    ensures Repeat(limit, h, op, k) == Repeat(limit, Step(limit, h, h.present, op), op, k - 1)
  {
    if k > 1 { FirstOutside(limit, h, op, k - 1); }
  }

  /** Two changes made by the same render both capture its present: the value in between is
      recorded nowhere, so undoing the second change does not bring it back. */
  lemma SecondChangeInOneRenderLosesFirst<T>(h: History<T>, x: T, y: T)
    requires x != h.present && x != y
    ensures var h1 := Step(Some(MAX_HISTORY), h, h.present, Set(x));
            var h2 := Step(Some(MAX_HISTORY), h1, h.present, Set(y));
            h2.future == [] && (x in h2.past ==> x in h.past)
            && Step(Some(MAX_HISTORY), h2, h2.present, Undo).present == h.present
  {
    var h1 := Step(Some(MAX_HISTORY), h, h.present, Set(x));
    var h2 := Step(Some(MAX_HISTORY), h1, h.present, Set(y));
    assert forall z | z in h2.past :: z in h1.past || z == h.present;
    assert forall z | z in h1.past :: z in h.past || z == h.present;
  }

  // ---------------------------------------------------------------------------------------
  // Exactly when a replaced value can be brought back

  predicate Effective<T>(h: History<T>, op: Op<T>) {
    (op.Undo? ==> h.past != []) && (op.Redo? ==> h.future != [])
  }

  function Inverse<T>(op: Op<T>): Op<T> { if op.Undo? then Redo else Undo }

  /** The inverse of an operation, made by a later render, shows the value that the operation
      replaced exactly if the operation captured it. */
  lemma BroughtBackExactlyWhenCaptured<T>(h: History<T>, shown: T, op: Op<T>)
    requires Effective(h, op)
    ensures var h' := Step(Some(MAX_HISTORY), h, shown, op);
            Step(Some(MAX_HISTORY), h', h'.present, Inverse(op)).present == h.present <==> shown == h.present
  {
    var h' := Step(Some(MAX_HISTORY), h, shown, op);
    if !op.Undo? { assert h'.past[|h'.past| - 1] == shown; }
  }

  /** The history before operation `i`, and whether that operation captured its present. */
  function Before<T>(initial: T, ops: seq<(T, Op<T>)>, i: nat): History<T>
    requires i <= |ops|
  {
    RunShown(Some(MAX_HISTORY), initial, ops[..i])
  }

  ghost predicate Captured<T(!new)>(initial: T, ops: seq<(T, Op<T>)>, i: nat)
    requires i < |ops|
  {
    var h := Before(initial, ops, i);
    Effective(h, ops[i].1) ==> ops[i].0 == h.present
  }

  ghost predicate BroughtBack<T(!new)>(initial: T, ops: seq<(T, Op<T>)>, i: nat)
    requires i < |ops|
  {
    var h, h' := Before(initial, ops, i), Before(initial, ops, i + 1);
    Effective(h, ops[i].1) ==> Step(Some(MAX_HISTORY), h', h'.present, Inverse(ops[i].1)).present == h.present
  }

  lemma BeforeSnoc<T>(initial: T, ops: seq<(T, Op<T>)>, i: nat)
    requires i < |ops|
    ensures Before(initial, ops, i + 1) == Step(Some(MAX_HISTORY), Before(initial, ops, i), ops[i].0, ops[i].1)
  {
    assert ops[..i + 1][..i] == ops[..i];
  }

  /** Along a run, with any number of operations in one render, every replaced value can be brought
      back at once exactly if every effective operation captured the current present. */
  lemma NoneLostExactlyWhenCaptured<T(!new)>(initial: T, ops: seq<(T, Op<T>)>)
    ensures (forall i | 0 <= i < |ops| :: BroughtBack(initial, ops, i)) <==> (forall i | 0 <= i < |ops| :: Captured(initial, ops, i))
  {
    forall i | 0 <= i < |ops| ensures BroughtBack(initial, ops, i) <==> Captured(initial, ops, i) {
      BeforeSnoc(initial, ops, i);
      var h := Before(initial, ops, i);
      if Effective(h, ops[i].1) { BroughtBackExactlyWhenCaptured(h, ops[i].0, ops[i].1); }
    }
  }

  function Bare<T>(ops: seq<(T, Op<T>)>): seq<Op<T>> { seq(|ops|, i requires 0 <= i < |ops| => ops[i].1) }

  /** Such a run is one with one operation in each render. */
  lemma {:induction false} CapturedRunIsOnePerRender<T(!new)>(initial: T, ops: seq<(T, Op<T>)>, n: nat)
    requires n <= |ops| && forall i | 0 <= i < |ops| :: Captured(initial, ops, i)
    ensures Before(initial, ops, n) == Bounded(initial, Bare(ops)[..n])
  {
    if n > 0 {
      CapturedRunIsOnePerRender(initial, ops, n - 1);
      BeforeSnoc(initial, ops, n - 1);
      RunSnoc(Some(MAX_HISTORY), initial, Bare(ops), n - 1);
      assert Captured(initial, ops, n - 1);
    }
  }

  /** A change shows the new value and leaves nothing to redo; undoing it shows the value that was
      replaced, and redoing it the new one again. */
  lemma ChangeShows<T>(h: History<T>, x: T)
    ensures var changed := Step(Some(MAX_HISTORY), h, h.present, Set(x));
            var undone := Step(Some(MAX_HISTORY), changed, changed.present, Undo);
            && changed.present == x && changed.future == []
            && undone.present == h.present && undone.future == [x]
            && Step(Some(MAX_HISTORY), undone, undone.present, Redo) == changed
  {
    var changed := Step(Some(MAX_HISTORY), h, h.present, Set(x));
    assert changed.past[|changed.past| - 1] == h.present;
  }
}
