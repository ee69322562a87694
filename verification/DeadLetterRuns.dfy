/** What every run of the dead-letter machine keeps: the account of a message's copies, which tells
    exactly when it is lost and when it is duplicated, and its body. */
module DeadLetterRuns {
  import opened Wrappers
  import opened Deliveries
  import opened DeadLetters
  import Decimal

  // ---------------------------------------------------------------------------------------
  // Sums over copies and agents

  function Sum<T>(s: seq<T>, f: T -> nat): nat {
    if s == [] then 0 else Sum(s[..|s| - 1], f) + f(s[|s| - 1])
  }

  lemma SumSnoc<T>(s: seq<T>, x: T, f: T -> nat)
    ensures Sum(s + [x], f) == Sum(s, f) + f(x)
  {
    assert (s + [x])[..|s|] == s;
  }

  lemma {:induction false} SumUpdate<T>(s: seq<T>, i: nat, x: T, f: T -> nat)
    requires i < |s|
    ensures Sum(s[i := x], f) + f(s[i]) == Sum(s, f) + f(x)
  {
    var n := |s| - 1;
    if i == n {
      assert s[i := x][..n] == s[..n];
    } else {
      SumUpdate(s[..n], i, x, f);
      assert s[i := x][..n] == s[..n][i := x];
    }
  }

  lemma {:induction false} SumZero<T>(s: seq<T>, f: T -> nat)
    requires forall x | x in s :: f(x) == 0
    ensures Sum(s, f) == 0
  {
    if s != [] { SumZero(s[..|s| - 1], f); }
  }

  lemma {:induction false} SumAtLeast<T>(s: seq<T>, i: nat, f: T -> nat)
    requires i < |s|
    ensures Sum(s, f) >= f(s[i])
  {
    if i < |s| - 1 { SumAtLeast(s[..|s| - 1], i, f); }
  }

  lemma {:induction false} SumPositive<T>(s: seq<T>, f: T -> nat)
    requires Sum(s, f) > 0
    ensures exists x :: x in s && f(x) > 0
  {
    var n := |s| - 1;
    if f(s[n]) > 0 {
      assert s[n] in s;
    } else {
      SumPositive(s[..n], f);
      var x :| x in s[..n] && f(x) > 0;
      assert x in s;
    }
  }

  // ---------------------------------------------------------------------------------------
  // Copies of a message

  /** Copies that are undelivered or pending, handled, or dead letters. */
  function LivingAs(root: nat): Copy -> nat {
    (c: Copy) => if c.root == root && (c.status == Live || c.status == Handled) then 1 else 0
  }

  function Living(b: Streams, root: nat): nat { Sum(b.log, LivingAs(root)) + Sum(b.dlq, LivingAs(root)) }

  /** Replacements that are half done: the new copy is written, the old one not yet removed. */
  function HalfDone(a: Agent, root: nat): nat {
    match a
    case MoveAcking(_, r) => if r == root then 1 else 0
    case Raised(_, r, spare) => if r == root && spare then 1 else 0
    case Deleting(_, r) => if r == root then 1 else 0
    case _ => 0
  }

  function HalfDoneAs(root: nat): Agent -> nat { (a: Agent) => HalfDone(a, root) }

  function InTransit(w: World, root: nat): nat { Sum(w.agents, HalfDoneAs(root)) }

  predicate Within(todo: seq<Id>, s: seq<Copy>) { forall i | i in todo :: i < |s| }

  predicate Concerns(todo: seq<Id>, s: seq<Copy>, root: nat) {
    todo != [] && todo[0] < |s| && s[todo[0]].root == root
  }

  /** An agent's positions exist, and it knows the message it is moving. */
  predicate Tagged(b: Streams, a: Agent) {
    match a
    case Working(todo) => Within(todo, b.log)
    case Moving(todo) => Within(todo, b.log)
    case MoveAcking(todo, root) => Within(todo, b.log) && Concerns(todo, b.log, root)
    case Raised(todo, root, _) => Within(todo, b.log) && Concerns(todo, b.log, root)
    case Reprocessing(todo) => Within(todo, b.dlq)
    case Deleting(todo, root) => Within(todo, b.dlq) && Concerns(todo, b.dlq, root)
  }

  predicate IsLive(s: seq<Copy>, id: Id) { id < |s| && s[id].status == Live }

  predicate IsRoot(b: Streams, root: nat) { root < |b.log| && b.log[root].root == root }

  /** The history of a stream only grows, but for the marks. */
  ghost predicate Extends(s: seq<Copy>, s': seq<Copy>) {
    |s| <= |s'| && forall i | 0 <= i < |s| :: s'[i].root == s[i].root && s'[i].body == s[i].body
  }

  /** What a copy of a message may look like: as first published, or with its retry count reset. */
  predicate SameMessage(b: Streams, root: nat, body: Body) {
    IsRoot(b, root) && (body == b.log[root].body || body == Reset(b.log[root].body))
  }

  ghost predicate SoundBodies(c: Codec, b: Streams) {
    && (forall copy | copy in b.log :: SameMessage(b, copy.root, copy.body))
    && (forall l | l in b.dlq :: SoundLetter(c, b, l))
  }

  predicate SoundLetter(c: Codec, b: Streams, l: Copy) {
    IsRoot(b, l.root) && (l.status == Live || l.status == Away) && Restored(c, l.body) == Some(Reset(b.log[l.root].body))
  }

  ghost predicate Sound(c: Codec, w: World) {
    var b := w.streams;
    && b.cursor <= |b.log|
    && (forall a | a in w.agents :: Tagged(b, a))
    && SoundBodies(c, b)
  }

  lemma StepExtends(c: Codec, b: Streams, a: Agent, e: Event)
    requires LocallyEnabled(b, a, e)
    ensures Extends(b.log, Local(c, b, a, e).0.log) && Extends(b.dlq, Local(c, b, a, e).0.dlq)
  {
  }

  lemma ExtensionKeeps(b: Streams, b': Streams)
    requires Extends(b.log, b'.log) && Extends(b.dlq, b'.dlq)
    ensures forall a | Tagged(b, a) :: Tagged(b', a)
    ensures forall root, body | SameMessage(b, root, body) :: SameMessage(b', root, body)
  {
  }

  lemma RestoredFromLetter(c: Codec, d: Details, body: Body)
    requires Lawful(c)
    ensures Restored(c, Entry(d, c.dumps(body))) == Some(Reset(body))
  {
  }

  /** Marking a live copy as replaced or rescued takes exactly one away. */
  lemma MarkTakes(s: seq<Copy>, i: nat, status: Status, fate: Fate, root: nat)
    requires i < |s|
    ensures var s' := Mark(s, i, status, fate);
            Sum(s', LivingAs(root)) + (if TakesEffect(fate) && s[i].status == Live && status != Handled && status != Live && s[i].root == root then 1 else 0)
            == Sum(s, LivingAs(root))
  {
    SumUpdate(s, i, s[i].(status := status), LivingAs(root));
  }

  /** The last-resort ack takes a pending copy for which no letter was written. */
  predicate LocallyRescues(b: Streams, a: Agent, e: Event, root: nat)
    requires LocallyEnabled(b, a, e)
  {
    e.Rescue? && TakesEffect(e.fate) && !a.spare && IsLive(b.log, a.todo[0]) && b.log[a.todo[0]].root == root
  }

  /** The step leaves a new copy beside the original: it ends a replacement that is half done
      without taking the original away, or writes the new copy without going on. */
  predicate LocallyDuplicates(c: Codec, b: Streams, a: Agent, e: Event, root: nat)
    requires LocallyEnabled(b, a, e)
  {
    match e
    case Crash(_) => HalfDone(a, root) == 1
    case Republish(_, fate) => fate == RaisesAfter && b.dlq[a.todo[0]].root == root && Restored(c, b.dlq[a.todo[0]].body).Some?
    case AckMoved(_, fate) => a.root == root && TakesEffect(fate) && !IsLive(b.log, a.todo[0])
    case Rescue(_, fate) => a.spare && a.root == root && !(TakesEffect(fate) && IsLive(b.log, a.todo[0]))
    case Delete(_, fate) => a.root == root && !(TakesEffect(fate) && IsLive(b.dlq, a.todo[0]))
    case _ => false
  }

  /** The account of one step: copies and half-done replacements before and after. */
  ghost predicate Balances(b: Streams, a: Agent, b': Streams, a': Agent, root: nat, rescues: bool, duplicates: bool) {
    Living(b', root) + HalfDone(a, root) + (if rescues then 1 else 0) == Living(b, root) + HalfDone(a', root) + (if duplicates then 1 else 0)
  }

  lemma WritingBalances(c: Codec, b: Streams, a: Agent, e: Event, root: nat)
    requires LocallyEnabled(b, a, e) && Tagged(b, a) && e.WriteLetter?
    ensures Balances(b, a, Local(c, b, a, e).0, Local(c, b, a, e).1, root, LocallyRescues(b, a, e, root), LocallyDuplicates(c, b, a, e, root))
  {
    var copy := b.log[a.todo[0]];
    var letter := Copy(copy.root, Entry(e.details, c.dumps(copy.body)), Live);
    SumSnoc(b.dlq, letter, LivingAs(root));
    assert LivingAs(root)(letter) == if copy.root == root then 1 else 0;
  }

  lemma AckingBalances(c: Codec, b: Streams, a: Agent, e: Event, root: nat)
    requires LocallyEnabled(b, a, e) && Tagged(b, a) && e.AckMoved?
    ensures Balances(b, a, Local(c, b, a, e).0, Local(c, b, a, e).1, root, LocallyRescues(b, a, e, root), LocallyDuplicates(c, b, a, e, root))
  {
    MarkTakes(b.log, a.todo[0], Away, e.fate, root);
  }

  lemma RescuingBalances(c: Codec, b: Streams, a: Agent, e: Event, root: nat)
    requires LocallyEnabled(b, a, e) && Tagged(b, a) && e.Rescue?
    ensures Balances(b, a, Local(c, b, a, e).0, Local(c, b, a, e).1, root, LocallyRescues(b, a, e, root), LocallyDuplicates(c, b, a, e, root))
  {
    MarkTakes(b.log, a.todo[0], if a.spare then Away else Rescued, e.fate, root);
  }

  lemma ReprocessingBalances(c: Codec, b: Streams, a: Agent, e: Event, root: nat)
    requires LocallyEnabled(b, a, e) && Tagged(b, a) && (e.Republish? || e.Delete?)
    ensures Balances(b, a, Local(c, b, a, e).0, Local(c, b, a, e).1, root, LocallyRescues(b, a, e, root), LocallyDuplicates(c, b, a, e, root))
  {
    var letter := b.dlq[a.todo[0]];
    if e.Republish? {
      var restored := Restored(c, letter.body);
      if restored.Some? { SumSnoc(b.log, Copy(letter.root, restored.value, Live), LivingAs(root)); }
    } else {
      MarkTakes(b.dlq, a.todo[0], Away, e.fate, root);
    }
  }

  lemma StepBalances(c: Codec, b: Streams, a: Agent, e: Event, root: nat)
    requires LocallyEnabled(b, a, e) && Tagged(b, a)
    ensures Balances(b, a, Local(c, b, a, e).0, Local(c, b, a, e).1, root, LocallyRescues(b, a, e, root), LocallyDuplicates(c, b, a, e, root))
  {
    if e.WriteLetter? {
      WritingBalances(c, b, a, e, root);
    } else if e.AckMoved? {
      AckingBalances(c, b, a, e, root);
    } else if e.Rescue? {
      RescuingBalances(c, b, a, e, root);
    } else if e.Republish? || e.Delete? {
      ReprocessingBalances(c, b, a, e, root);
    } else if e.Handle? {
      MarkTakes(b.log, a.todo[0], Handled, e.fate, root);
    }
  }

  lemma StepKeepsTagged(c: Codec, b: Streams, a: Agent, e: Event)
    requires LocallyEnabled(b, a, e) && Tagged(b, a) && b.cursor <= |b.log|
    ensures var (b', a') := Local(c, b, a, e);
            Tagged(b', a') && b'.cursor <= |b'.log|
  {
    var (b', a') := Local(c, b, a, e);
    if e.Deliver? {
      forall i | i in Range(b.cursor, e.n) ensures i < |b.log| { RangeOnce(b.cursor, e.n, i); }
    } else if e.Snapshot? {
      assert forall i | i in Take(Letters(b.dlq), e.count) :: i in Letters(b.dlq);
    } else if a.todo != [] {
      assert forall i | i in a.todo[1..] :: i in a.todo;
    }
  }

  lemma StepKeepsSound(c: Codec, w: World, e: Event)
    requires Lawful(c) && Enabled(w, e) && Sound(c, w)
    ensures Sound(c, After(c, w, e)) && Extends(w.streams.log, After(c, w, e).streams.log)
  {
    var b, b' := w.streams, After(c, w, e).streams;
    if e.Produce? {
      ExtensionKeeps(b, b');
    } else {
      var a := w.agents[e.w];
      StepExtends(c, b, a, e);
      ExtensionKeeps(b, b');
      StepKeepsTagged(c, b, a, e);
      StepKeepsBodies(c, b, a, e);
    }
  }

  lemma StepKeepsBodies(c: Codec, b: Streams, a: Agent, e: Event)
    requires Lawful(c) && LocallyEnabled(b, a, e) && Tagged(b, a) && SoundBodies(c, b)
    ensures SoundBodies(c, Local(c, b, a, e).0)
  {
    var b' := Local(c, b, a, e).0;
    StepExtends(c, b, a, e);
    ExtensionKeeps(b, b');
    if e.WriteLetter? {
      var copy := b.log[a.todo[0]];
      RestoredFromLetter(c, e.details, copy.body);
      assert SameMessage(b, copy.root, copy.body);
      assert Reset(Reset(b.log[copy.root].body)) == Reset(b.log[copy.root].body);
    } else if e.Republish? {
      assert SoundLetter(c, b, b.dlq[a.todo[0]]);
    }
    forall j | 0 <= j < |b'.dlq| ensures SoundLetter(c, b', b'.dlq[j]) {
      if j < |b.dlq| { assert SoundLetter(c, b, b.dlq[j]); }
    }
    forall j | 0 <= j < |b'.log| ensures SameMessage(b', b'.log[j].root, b'.log[j].body) {
      if j < |b.log| { assert SameMessage(b, b.log[j].root, b.log[j].body); }
    }
  }

  lemma {:induction false} SoundHolds(c: Codec, ws: seq<World>, es: seq<Event>, n: nat)
    requires IsRun(c, ws, es) && n < |ws|
    ensures Sound(c, ws[n])
  {
    if n > 0 {
      SoundHolds(c, ws, es, n - 1);
      assert ws[n - 1 + 1] == After(c, ws[n - 1], es[n - 1]);
      StepKeepsSound(c, ws[n - 1], es[n - 1]);
    }
  }

  /** Every copy of a message, however often it was dead-lettered and reprocessed, is the message
      as published or with its retry count set to "0"; every dead letter gives it back. */
  lemma BodiesSurvive(c: Codec, ws: seq<World>, es: seq<Event>, n: nat)
    requires IsRun(c, ws, es) && n < |ws|
    ensures SoundBodies(c, ws[n].streams)
  {
    SoundHolds(c, ws, es, n);
  }

  // ---------------------------------------------------------------------------------------
  // The account of a message

  predicate Rescues(w: World, e: Event, root: nat) {
    !e.Produce? && Enabled(w, e) && LocallyRescues(w.streams, w.agents[e.w], e, root)
  }

  predicate Duplicates(c: Codec, w: World, e: Event, root: nat) {
    !e.Produce? && Enabled(w, e) && LocallyDuplicates(c, w.streams, w.agents[e.w], e, root)
  }

  /** How many of the first `n` steps of a run there are of one kind. */
  ghost function Steps(ws: seq<World>, es: seq<Event>, n: nat, kind: (World, Event) -> bool): nat
    requires n <= |es| < |ws|
  {
    if n == 0 then 0 else Steps(ws, es, n - 1, kind) + if kind(ws[n - 1], es[n - 1]) then 1 else 0
  }

  lemma {:induction false} NoSuchStep(ws: seq<World>, es: seq<Event>, n: nat, kind: (World, Event) -> bool)
    requires n <= |es| < |ws|
    ensures Steps(ws, es, n, kind) == 0 <==> forall k | 0 <= k < n :: !kind(ws[k], es[k])
  {
    if n > 0 { NoSuchStep(ws, es, n - 1, kind); }
  }

  function RescuesOf(root: nat): (World, Event) -> bool { (w: World, e: Event) => Rescues(w, e, root) }

  function DuplicationsOf(c: Codec, root: nat): (World, Event) -> bool { (w: World, e: Event) => Duplicates(c, w, e, root) }

  lemma StepCounts(c: Codec, w: World, e: Event, root: nat)
    requires Enabled(w, e) && Sound(c, w) && !e.Produce?
    ensures var w' := After(c, w, e);
            Living(w'.streams, root) + InTransit(w, root) + (if Rescues(w, e, root) then 1 else 0) ==
            Living(w.streams, root) + InTransit(w', root) + (if Duplicates(c, w, e, root) then 1 else 0)
    ensures IsRoot(After(c, w, e).streams, root) <==> IsRoot(w.streams, root)
  {
    StepBalances(c, w.streams, w.agents[e.w], e, root);
    SumUpdate(w.agents, e.w, After(c, w, e).agents[e.w], HalfDoneAs(root));
    StepKeepsRoots(c, w, e, root);
  }

  lemma StepKeepsRoots(c: Codec, w: World, e: Event, root: nat)
    requires Enabled(w, e) && Sound(c, w) && !e.Produce?
    ensures IsRoot(After(c, w, e).streams, root) <==> IsRoot(w.streams, root)
  {
    var b := w.streams;
    StepExtends(c, b, w.agents[e.w], e);
    if e.Republish? { assert SoundLetter(c, b, b.dlq[w.agents[e.w].todo[0]]); }
  }

  lemma ProduceCounts(c: Codec, w: World, e: Event, root: nat)
    requires e.Produce?
    ensures var w' := After(c, w, e);
            && InTransit(w', root) == InTransit(w, root)
            && Living(w'.streams, root) == Living(w.streams, root) + (if root == |w.streams.log| then 1 else 0)
            && (IsRoot(w'.streams, root) <==> IsRoot(w.streams, root) || root == |w.streams.log|)
  {
    SumSnoc(w.streams.log, Copy(|w.streams.log|, e.body, Live), LivingAs(root));
  }

  /** In every run, whatever is moved, reprocessed or interrupted: the copies of a published
      message and those the last-resort ack has taken are one, one more for each replacement that
      is half done, and one more for each step that has duplicated it. */
  lemma {:induction false} CopiesAccountedFor(c: Codec, ws: seq<World>, es: seq<Event>, n: nat, root: nat)
    requires IsRun(c, ws, es) && n < |ws|
    ensures Living(ws[n].streams, root) + Steps(ws, es, n, RescuesOf(root)) ==
            (if IsRoot(ws[n].streams, root) then 1 else 0) + InTransit(ws[n], root) + Steps(ws, es, n, DuplicationsOf(c, root))
  {
    if n == 0 {
      SumZero(ws[0].agents, HalfDoneAs(root));
    } else {
      var w, e := ws[n - 1], es[n - 1];
      CopiesAccountedFor(c, ws, es, n - 1, root);
      assert ws[n - 1 + 1] == After(c, w, e) && Enabled(w, e);
      SoundHolds(c, ws, es, n - 1);
      if e.Produce? { ProduceCounts(c, w, e, root); } else { StepCounts(c, w, e, root); }
    }
  }

  ghost predicate HasCopy(s: seq<Copy>, root: nat, status: Status) {
    exists copy :: copy in s && copy.root == root && copy.status == status
  }

  /** The message is undelivered or pending, handled, or a dead letter. */
  ghost predicate Survives(b: Streams, root: nat) {
    HasCopy(b.log, root, Live) || HasCopy(b.log, root, Handled) || HasCopy(b.dlq, root, Live)
  }

  lemma SurvivesWhenLiving(c: Codec, b: Streams, root: nat)
    requires SoundBodies(c, b)
    ensures Survives(b, root) <==> Living(b, root) > 0
  {
    forall i | 0 <= i < |b.log| ensures Sum(b.log, LivingAs(root)) >= LivingAs(root)(b.log[i]) { SumAtLeast(b.log, i, LivingAs(root)); }
    forall i | 0 <= i < |b.dlq| ensures Sum(b.dlq, LivingAs(root)) >= LivingAs(root)(b.dlq[i]) { SumAtLeast(b.dlq, i, LivingAs(root)); }
    if Sum(b.log, LivingAs(root)) > 0 { SumPositive(b.log, LivingAs(root)); }
    if Sum(b.dlq, LivingAs(root)) > 0 {
      SumPositive(b.dlq, LivingAs(root));
      assert forall l | l in b.dlq :: SoundLetter(c, b, l);
    }
  }

  /** A message is lost exactly when the last-resort ack has taken as many copies as there ever
      were: one, one for each half-done replacement, and one for each duplication. */
  lemma LostExactlyWhen(c: Codec, ws: seq<World>, es: seq<Event>, n: nat, root: nat)
    requires IsRun(c, ws, es) && n < |ws| && IsRoot(ws[n].streams, root)
    ensures !Survives(ws[n].streams, root) <==>
            Steps(ws, es, n, RescuesOf(root)) == 1 + InTransit(ws[n], root) + Steps(ws, es, n, DuplicationsOf(c, root))
  {
    CopiesAccountedFor(c, ws, es, n, root);
    SoundHolds(c, ws, es, n);
    SurvivesWhenLiving(c, ws[n].streams, root);
  }

  /** Of a message that nobody is moving there is one copy exactly when it has been rescued as
      often as duplicated; without counting rescued copies apart, exactly when no step has
      duplicated it. */
  lemma OneCopyExactlyWhen(c: Codec, ws: seq<World>, es: seq<Event>, n: nat, root: nat)
    requires IsRun(c, ws, es) && n < |ws| && IsRoot(ws[n].streams, root)
    requires forall a | a in ws[n].agents :: HalfDone(a, root) == 0
    ensures Living(ws[n].streams, root) == 1 <==>
            Steps(ws, es, n, RescuesOf(root)) == Steps(ws, es, n, DuplicationsOf(c, root))
    ensures Living(ws[n].streams, root) + Steps(ws, es, n, RescuesOf(root)) == 1 <==>
            forall k | 0 <= k < n :: !Duplicates(c, ws[k], es[k], root)
  {
    CopiesAccountedFor(c, ws, es, n, root);
    SumZero(ws[n].agents, HalfDoneAs(root));
    NoSuchStep(ws, es, n, DuplicationsOf(c, root));
    assert forall k | 0 <= k < n :: DuplicationsOf(c, root)(ws[k], es[k]) == Duplicates(c, ws[k], es[k], root);
  }

  /** So a message is lost only in a run in which the last-resort ack took a copy of it after a
      move that wrote nothing. (The step that takes the last copy can be a later one: the ack of
      another move whose letter was reprocessed.) */
  lemma LostOnlyAfterRescue(c: Codec, ws: seq<World>, es: seq<Event>, n: nat, root: nat)
    requires IsRun(c, ws, es) && n < |ws| && IsRoot(ws[n].streams, root) && !Survives(ws[n].streams, root)
    ensures exists k :: 0 <= k < n && Rescues(ws[k], es[k], root)
  {
    LostExactlyWhen(c, ws, es, n, root);
    NoSuchStep(ws, es, n, RescuesOf(root));
    var k :| 0 <= k < n && RescuesOf(root)(ws[k], es[k]);
    assert Rescues(ws[k], es[k], root);
  }

  /** Every message survives every run, with or without last-resort acks. */
  ghost predicate NeverLoses(c: Codec, rescues: bool) {
    forall ws: seq<World>, es, root | IsRun(c, ws, es) && IsRoot(ws[|es|].streams, root) && (rescues || NoRescue(es)) ::
      Survives(ws[|es|].streams, root)
  }

  predicate NoRescue(es: seq<Event>) { forall i | 0 <= i < |es| :: !es[i].Rescue? }

  /** No message is ever lost exactly if the last-resort ack is not used. */
  lemma NothingLostExactlyWithoutRescue(c: Codec, rescues: bool)
    requires Lawful(c)
    ensures NeverLoses(c, rescues) <==> !rescues
  {
    if rescues {
      var ws, es := RescueLosesMessage(c);
    } else {
      forall ws: seq<World>, es, root | IsRun(c, ws, es) && IsRoot(ws[|es|].streams, root) && NoRescue(es) ensures Survives(ws[|es|].streams, root) {
        if !Survives(ws[|es|].streams, root) { LostOnlyAfterRescue(c, ws, es, |es|, root); }
      }
    }
  }

  // ---------------------------------------------------------------------------------------
  // Continuing a run

  ghost predicate Connects(c: Codec, w: World, w': World, ws: seq<World>, es: seq<Event>) {
    IsPath(c, ws, es) && ws[0] == w && ws[|es|] == w'
  }

  /** Some steps lead from one world to the other. */
  ghost predicate Reaches(c: Codec, w: World, w': World) {
    exists ws, es :: Connects(c, w, w', ws, es)
  }

  lemma ReachesSelf(c: Codec, w: World)
    ensures Reaches(c, w, w)
  {
    assert Connects(c, w, w, [w], []);
  }

  lemma OneStepFurther(c: Codec, w: World, w': World, e: Event, w'': World)
    requires Reaches(c, w, w') && Enabled(w', e) && w'' == After(c, w', e)
    ensures Reaches(c, w, w'')
  {
    var ws, es :| Connects(c, w, w', ws, es);
    ws, es := Extend(c, ws, es, e);
    assert Connects(c, w, w'', ws, es);
  }

  /** Steps from where a run ends continue the run, so what holds in every run holds after them. */
  lemma StepsExtendRun(c: Codec, ws: seq<World>, es: seq<Event>, w: World) returns (ws': seq<World>, es': seq<Event>)
    requires IsRun(c, ws, es) && Reaches(c, ws[|es|], w)
    ensures IsRun(c, ws', es') && ws <= ws' && es <= es' && ws'[|es'|] == w
    ensures Sound(c, w)
  {
    var ws1, es1 :| Connects(c, ws[|es|], w, ws1, es1);
    ws', es' := ws + ws1[1..], es + es1;
    forall i | 0 <= i < |es'| ensures Enabled(ws'[i], es'[i]) && ws'[i + 1] == After(c, ws'[i], es'[i]) {
      if i < |es| {
        assert ws'[i] == ws[i] && ws'[i + 1] == ws[i + 1];
      } else {
        assert ws'[i] == ws1[i - |es|] && ws'[i + 1] == ws1[i - |es| + 1];
      }
    }
    SoundHolds(c, ws', es', |es'|);
  }

  // ---------------------------------------------------------------------------------------
  // In whose hands a message is

  /** How often an agent holds a position of the stream, or of the dead-letter stream. */
  function Held(a: Agent, inDlq: bool, id: Id): nat {
    if inDlq == (a.Reprocessing? || a.Deleting?) then Occurrences(a.todo, id) else 0
  }

  function HeldAs(inDlq: bool, id: Id): Agent -> nat { (a: Agent) => Held(a, inDlq, id) }

  /** Whatever fails, a message is in the hands of one agent at most, and of none before its
      delivery. */
  ghost predicate HeldOnce(w: World) {
    forall id: Id :: Sum(w.agents, HeldAs(false, id)) <= if id < w.streams.cursor then 1 else 0
  }

  lemma StepHolds(c: Codec, b: Streams, a: Agent, e: Event, id: Id)
    requires LocallyEnabled(b, a, e)
    ensures var (b', a') := Local(c, b, a, e);
            b.cursor <= b'.cursor
            && Held(a', false, id) <= Held(a, false, id) + if b.cursor <= id < b'.cursor then 1 else 0
  {
    if e.Deliver? {
      RangeOnce(b.cursor, e.n, id);
    } else if !e.Snapshot? && a.todo != [] {
      CountHead(a.todo, id);
    }
  }

  lemma {:induction false} HeldOnceHolds(c: Codec, ws: seq<World>, es: seq<Event>, n: nat)
    requires IsRun(c, ws, es) && n < |ws|
    ensures HeldOnce(ws[n])
  {
    if n == 0 {
      forall id: Id ensures Sum(ws[0].agents, HeldAs(false, id)) == 0 { SumZero(ws[0].agents, HeldAs(false, id)); }
    } else {
      HeldOnceHolds(c, ws, es, n - 1);
      var w, e, w' := ws[n - 1], es[n - 1], ws[n];
      assert ws[n - 1 + 1] == After(c, w, e) && Enabled(w, e);
      forall id: Id ensures Sum(w'.agents, HeldAs(false, id)) <= if id < w'.streams.cursor then 1 else 0 {
        assert Sum(w.agents, HeldAs(false, id)) <= if id < w.streams.cursor then 1 else 0;
        if !e.Produce? {
          StepHolds(c, w.streams, w.agents[e.w], e, id);
          SumUpdate(w.agents, e.w, w'.agents[e.w], HeldAs(false, id));
        }
      }
    }
  }

  lemma OneHolder(w: World, i: nat, j: nat, id: Id)
    requires HeldOnce(w) && i < |w.agents| && j < |w.agents|
    ensures Held(w.agents[i], false, id) <= if id < w.streams.cursor then 1 else 0
    ensures i != j ==> Held(w.agents[i], false, id) + Held(w.agents[j], false, id) <= 1
  {
    assert Sum(w.agents, HeldAs(false, id)) <= if id < w.streams.cursor then 1 else 0;
    SumAtLeast(w.agents, i, HeldAs(false, id));
    SumUpdate(w.agents, i, IDLE, HeldAs(false, id));
    SumAtLeast(w.agents[i := IDLE], j, HeldAs(false, id));
  }

  // ---------------------------------------------------------------------------------------
  // Runs that duplicate nothing

  predicate Faultless(e: Event) {
    match e
    case Produce(_) => true
    case Fail(_, _) => true
    case Snapshot(_, _) => true
    case Finish(_) => true
    case Crash(_) => false
    case _ => e.fate.Works?
  }

  /** Moves and reads may fail, and handler acks and republications that took no effect. */
  predicate Tolerable(e: Event) {
    e.WriteLetter? || e.AckMoved? || e.Deliver? || ((e.Handle? || e.Republish?) && e.fate != RaisesAfter) || Faultless(e)
  }

  predicate Untouched(b: Streams) { forall id | b.cursor <= id < |b.log| :: b.log[id].status == Live }

  /** The positions that an agent still has to settle: the first one of a move that raised has
      been settled or has no letter. */
  function Unsettled(a: Agent): seq<Id> {
    match a
    case Raised(todo, _, spare) => if spare || todo == [] then todo else todo[1..]
    case Reprocessing(_) => []
    case Deleting(_, _) => []
    case _ => a.todo
  }

  /** What an agent still has to settle is live. */
  ghost predicate AtWork(b: Streams, a: Agent) { forall id | id in Unsettled(a) :: IsLive(b.log, id) }

  function LetterCap(b: Streams, id: Id): nat { if IsLive(b.dlq, id) then 1 else 0 }

  ghost predicate Owned(w: World) {
    && Untouched(w.streams)
    && (forall a | a in w.agents :: AtWork(w.streams, a))
    && (forall id: Id :: Sum(w.agents, HeldAs(true, id)) <= LetterCap(w.streams, id))
  }

  /** A reprocessing reads the letters that were not deleted, each once ... */
  lemma {:induction false} LettersOnce(s: seq<Copy>, id: Id)
    ensures Occurrences(Letters(s), id) == if IsLive(s, id) then 1 else 0
  {
    if s != [] {
      var n := |s| - 1;
      LettersOnce(s[..n], id);
      CountSnoc(Letters(s[..n]), n, id);
    }
  }

  /** ... in the order of the stream. */
  lemma {:induction false} LettersInOrder(s: seq<Copy>)
    ensures forall i, j | 0 <= i < j < |Letters(s)| :: Letters(s)[i] < Letters(s)[j]
  {
    if s != [] {
      var n := |s| - 1;
      LettersInOrder(s[..n]);
      assert forall i | 0 <= i < |Letters(s[..n])| :: Letters(s[..n])[i] in Letters(s[..n]);
    }
  }

  lemma TakenOnce(s: seq<Id>, count: nat, id: Id)
    ensures Occurrences(Take(s, count), id) <= Occurrences(s, id)
  {
    if count < |s| {
      assert s == s[..count] + s[count..];
      CountConcat(s[..count], s[count..], id);
    }
  }

  /** Only one agent reprocesses at a time. */
  predicate Solo(w: World, e: Event) {
    e.Snapshot? ==> forall a | a in w.agents :: !a.Reprocessing? && !a.Deleting?
  }

  /** `rest` is what the other agents hold. */
  lemma StepKeepsLetterCap(c: Codec, b: Streams, a: Agent, e: Event, rest: nat, id: Id)
    requires LocallyEnabled(b, a, e) && Tolerable(e)
    requires rest + Held(a, true, id) <= LetterCap(b, id) && (e.Snapshot? ==> rest == 0)
    ensures var (b', a') := Local(c, b, a, e);
            rest + Held(a', true, id) <= LetterCap(b', id)
  {
    if e.Snapshot? {
      LettersOnce(b.dlq, id);
      TakenOnce(Letters(b.dlq), e.count, id);
    } else if e.Delete? {
      CountHead(a.todo, id);
    }
  }

  lemma StepKeepsLetters(c: Codec, w: World, e: Event, id: Id)
    requires Enabled(w, e) && Tolerable(e) && Solo(w, e) && Owned(w) && !e.Produce?
    ensures var w' := After(c, w, e);
            Sum(w'.agents, HeldAs(true, id)) <= LetterCap(w'.streams, id)
  {
    var w', others := After(c, w, e), w.agents[e.w := IDLE];
    assert Sum(w.agents, HeldAs(true, id)) <= LetterCap(w.streams, id);
    SumUpdate(w.agents, e.w, IDLE, HeldAs(true, id));
    SumUpdate(w.agents, e.w, w'.agents[e.w], HeldAs(true, id));
    if e.Snapshot? {
      assert forall x | x in others :: x in w.agents || x == IDLE;
      SumZero(others, HeldAs(true, id));
    }
    StepKeepsLetterCap(c, w.streams, w.agents[e.w], e, Sum(others, HeldAs(true, id)), id);
  }

  /** Whether a step acks the first position of its agent. */
  predicate Acks(e: Event) { e.Handle? || e.AckMoved? || e.Rescue? }

  lemma StepKeepsLive(c: Codec, b: Streams, a: Agent, e: Event, id: Id)
    requires LocallyEnabled(b, a, e) && IsLive(b.log, id) && (Acks(e) ==> a.todo[0] != id)
    ensures IsLive(Local(c, b, a, e).0.log, id)
  {
  }

  /** What an agent has to settle after its step is what it had to settle before, or new. */
  lemma StepUnsettled(c: Codec, b: Streams, a: Agent, e: Event, id: Id)
    requires LocallyEnabled(b, a, e) && Tolerable(e) && id in Unsettled(Local(c, b, a, e).1)
    requires Occurrences(a.todo, id) <= 1
    ensures id in Unsettled(a) || (e.Deliver? && b.cursor <= id < |b.log|)
    ensures Acks(e) && Local(c, b, a, e).0 != b ==> a.todo[0] != id
  {
    if e.Deliver? {
      RangeOnce(b.cursor, e.n, id);
    } else if a.todo != [] {
      CountHead(a.todo, id);
      assert id in a.todo[1..] ==> Occurrences(a.todo[1..], id) > 0;
    }
  }

  lemma StepperAtWork(c: Codec, w: World, e: Event)
    requires Enabled(w, e) && Tolerable(e) && HeldOnce(w) && Owned(w) && !e.Produce?
    ensures var w' := After(c, w, e); AtWork(w'.streams, w'.agents[e.w])
  {
    var b, a := w.streams, w.agents[e.w];
    var (b', a') := Local(c, b, a, e);
    assert AtWork(b, a);
    forall id | id in Unsettled(a') ensures IsLive(b'.log, id) {
      OneHolder(w, e.w, e.w, id);
      if !a.Reprocessing? && !a.Deleting? {
        StepUnsettled(c, b, a, e, id);
        if b' != b { StepKeepsLive(c, b, a, e, id); }
      }
    }
  }

  lemma BystanderAtWork(c: Codec, w: World, e: Event, j: nat)
    requires Enabled(w, e) && Tolerable(e) && HeldOnce(w) && Owned(w) && !e.Produce?
    requires j < |w.agents| && j != e.w
    ensures AtWork(After(c, w, e).streams, w.agents[j])
  {
    var a := w.agents[e.w];
    assert AtWork(w.streams, w.agents[j]);
    forall id | id in Unsettled(w.agents[j]) ensures IsLive(After(c, w, e).streams.log, id) {
      OneHolder(w, e.w, j, id);
      assert id in w.agents[j].todo && Occurrences(w.agents[j].todo, id) > 0;
      if Acks(e) && a.todo[0] == id { CountHead(a.todo, id); }
      StepKeepsLive(c, w.streams, a, e, id);
    }
  }

  lemma StepKeepsUntouched(c: Codec, b: Streams, a: Agent, e: Event)
    requires LocallyEnabled(b, a, e) && Untouched(b) && (Acks(e) ==> a.todo[0] < b.cursor)
    ensures Untouched(Local(c, b, a, e).0)
  {
  }

  lemma StepKeepsOwned(c: Codec, w: World, e: Event)
    requires Enabled(w, e) && Tolerable(e) && Solo(w, e) && HeldOnce(w) && Owned(w)
    ensures Owned(After(c, w, e))
  {
    var w' := After(c, w, e);
    if e.Produce? {
      forall a | a in w'.agents ensures AtWork(w'.streams, a) { assert AtWork(w.streams, a); }
    } else {
      if Acks(e) {
        OneHolder(w, e.w, e.w, w.agents[e.w].todo[0]);
        CountHead(w.agents[e.w].todo, w.agents[e.w].todo[0]);
      }
      StepKeepsUntouched(c, w.streams, w.agents[e.w], e);
      forall j | 0 <= j < |w'.agents| ensures AtWork(w'.streams, w'.agents[j]) {
        if j == e.w { StepperAtWork(c, w, e); } else { BystanderAtWork(c, w, e, j); }
      }
      forall id: Id ensures Sum(w'.agents, HeldAs(true, id)) <= LetterCap(w'.streams, id) { StepKeepsLetters(c, w, e, id); }
    }
  }

  lemma NothingDuplicated(c: Codec, w: World, e: Event, root: nat)
    requires Enabled(w, e) && Tolerable(e) && Owned(w)
    ensures !Duplicates(c, w, e, root)
  {
    if !e.Produce? {
      var a := w.agents[e.w];
      assert AtWork(w.streams, a);
      if a.Deleting? && a.todo != [] {
        assert Sum(w.agents, HeldAs(true, a.todo[0])) <= LetterCap(w.streams, a.todo[0]);
        SumAtLeast(w.agents, e.w, HeldAs(true, a.todo[0]));
        CountHead(a.todo, a.todo[0]);
      }
    }
  }

  /** No crashes, only tolerable Redis errors, and one reprocessor at a time. */
  ghost predicate Orderly(ws: seq<World>, es: seq<Event>, n: nat)
    requires n <= |es| < |ws|
  {
    forall i | 0 <= i < n :: Tolerable(es[i]) && Solo(ws[i], es[i])
  }

  lemma {:induction false} OwnedHolds(c: Codec, ws: seq<World>, es: seq<Event>, n: nat)
    requires IsRun(c, ws, es) && n < |ws| && Orderly(ws, es, n)
    ensures Owned(ws[n])
  {
    if n == 0 {
      forall id: Id ensures Sum(ws[0].agents, HeldAs(true, id)) == 0 { SumZero(ws[0].agents, HeldAs(true, id)); }
    } else {
      OwnedHolds(c, ws, es, n - 1);
      HeldOnceHolds(c, ws, es, n - 1);
      assert ws[n - 1 + 1] == After(c, ws[n - 1], es[n - 1]);
      assert Tolerable(es[n - 1]) && Solo(ws[n - 1], es[n - 1]);
      StepKeepsOwned(c, ws[n - 1], es[n - 1]);
    }
  }

  /** In an orderly run a message that nobody is moving has exactly one copy, unless that one was
      rescued. */
  lemma ExactlyOneCopy(c: Codec, ws: seq<World>, es: seq<Event>, n: nat, root: nat)
    requires IsRun(c, ws, es) && n < |ws| && Orderly(ws, es, n) && IsRoot(ws[n].streams, root)
    requires forall a | a in ws[n].agents :: HalfDone(a, root) == 0
    ensures Living(ws[n].streams, root) + Steps(ws, es, n, RescuesOf(root)) == 1
  {
    forall k | 0 <= k < n ensures !Duplicates(c, ws[k], es[k], root) {
      OwnedHolds(c, ws, es, k);
      assert Tolerable(es[k]) && Enabled(ws[k], es[k]);
      NothingDuplicated(c, ws[k], es[k], root);
    }
    OneCopyExactlyWhen(c, ws, es, n, root);
  }

  /** It is lost exactly if the last-resort ack took its copy after a move that wrote nothing. */
  lemma LostExactlyWhenRescued(c: Codec, ws: seq<World>, es: seq<Event>, n: nat, root: nat)
    requires IsRun(c, ws, es) && n < |ws| && Orderly(ws, es, n) && IsRoot(ws[n].streams, root)
    requires forall a | a in ws[n].agents :: HalfDone(a, root) == 0
    ensures !Survives(ws[n].streams, root) <==> exists k :: 0 <= k < n && Rescues(ws[k], es[k], root)
  {
    ExactlyOneCopy(c, ws, es, n, root);
    SoundHolds(c, ws, es, n);
    SurvivesWhenLiving(c, ws[n].streams, root);
    NoSuchStep(ws, es, n, RescuesOf(root));
    assert forall k | 0 <= k < n :: RescuesOf(root)(ws[k], es[k]) == Rescues(ws[k], es[k], root);
  }

  // ---------------------------------------------------------------------------------------
  // Nothing is retried

  /** Delivered, not acked, and in nobody's hands. */
  ghost predicate Abandoned(w: World, id: Id) {
    id < w.streams.cursor && IsLive(w.streams.log, id) && forall a | a in w.agents :: Held(a, false, id) == 0
  }

  lemma StepAbandons(c: Codec, b: Streams, a: Agent, e: Event, id: Id)
    requires LocallyEnabled(b, a, e) && id < b.cursor && IsLive(b.log, id) && Held(a, false, id) == 0
    ensures var (b', a') := Local(c, b, a, e);
            id < b'.cursor && IsLive(b'.log, id) && Held(a', false, id) == 0
  {
    if e.Deliver? {
      RangeOnce(b.cursor, e.n, id);
    } else if !e.Snapshot? && a.todo != [] {
      CountHead(a.todo, id);
    }
  }

  lemma {:induction false} AbandonedForever(c: Codec, ws: seq<World>, es: seq<Event>, n: nat, m: nat, id: Id)
    requires IsPath(c, ws, es) && n <= m < |ws| && Abandoned(ws[n], id)
    ensures Abandoned(ws[m], id)
  {
    if n < m {
      AbandonedForever(c, ws, es, n, m - 1, id);
      var w, e := ws[m - 1], es[m - 1];
      assert ws[m - 1 + 1] == After(c, w, e) && Enabled(w, e);
      if !e.Produce? { StepAbandons(c, w.streams, w.agents[e.w], e, id); }
    }
  }

  /** A message that `consume_with_retry` leaves pending is never given to a handler again, never
      dead-lettered and never acked: it stays pending for ever. */
  lemma FailedIsNeverRetried(c: Codec, ws: seq<World>, es: seq<Event>, n: nat, m: nat, max: int)
    requires IsRun(c, ws, es) && n < m < |ws| && es[n].Fail? && es[n].policy == Retrying(max)
    requires Enabled(ws[n], es[n])
    requires var a, log := ws[n].agents[es[n].w], ws[n].streams.log;
             log[a.todo[0]].status == Live && Readable(log[a.todo[0]].body) && !Exhausted(log[a.todo[0]].body, max)
    ensures Abandoned(ws[m], ws[n].agents[es[n].w].todo[0])
  {
    var w, e, w' := ws[n], es[n], ws[n + 1];
    var id := w.agents[e.w].todo[0];
    DispositionTells(w.streams.log[id].body, max);
    assert w' == After(c, w, e);
    HeldOnceHolds(c, ws, es, n);
    assert Sum(w.agents, HeldAs(false, id)) <= if id < w.streams.cursor then 1 else 0;
    CountHead(w.agents[e.w].todo, id);
    SumUpdate(w.agents, e.w, w'.agents[e.w], HeldAs(false, id));
    SumAtLeast(w.agents, e.w, HeldAs(false, id));
    forall a | a in w'.agents ensures Held(a, false, id) == 0 {
      var i :| 0 <= i < |w'.agents| && w'.agents[i] == a;
      SumAtLeast(w'.agents, i, HeldAs(false, id));
    }
    AbandonedForever(c, ws, es, n + 1, m, id);
  }

  /** Producers publish only bodies with `p`, and consumers use `consume_with_retry` with limits
      that have `q`. */
  predicate Restricted(e: Event, p: Body -> bool, q: int -> bool) {
    && (e.Produce? ==> p(e.body))
    && (e.Fail? ==> e.policy.Retrying? && q(e.policy.maxRetries))
  }

  ghost predicate NoneOutOfRetries(p: Body -> bool, q: int -> bool) {
    forall b, max | p(b) && q(max) :: !Exhausted(b, max)
  }

  predicate Unmoved(a: Agent) { !a.Moving? && !a.MoveAcking? && !a.Raised? && !a.Deleting? && (a.Reprocessing? ==> a.todo == []) }

  predicate Undead(b: Streams, p: Body -> bool) { b.dlq == [] && forall copy | copy in b.log :: p(copy.body) }

  lemma StepKeepsUndead(c: Codec, b: Streams, a: Agent, e: Event, p: Body -> bool, q: int -> bool)
    requires LocallyEnabled(b, a, e) && Restricted(e, p, q) && NoneOutOfRetries(p, q) && Unmoved(a) && Undead(b, p)
    ensures Unmoved(Local(c, b, a, e).1) && Undead(Local(c, b, a, e).0, p)
  {
    if e.Fail? {
      assert p(b.log[a.todo[0]].body);
      if e.policy.Retrying? { DispositionTells(b.log[a.todo[0]].body, e.policy.maxRetries); }
    } else if e.Handle? {
      assert forall copy | copy in Mark(b.log, a.todo[0], Handled, e.fate) :: exists i :: 0 <= i < |b.log| && copy.body == b.log[i].body;
    }
  }

  lemma {:induction false} NothingDies(c: Codec, ws: seq<World>, es: seq<Event>, n: nat, p: Body -> bool, q: int -> bool)
    requires IsRun(c, ws, es) && n < |ws| && NoneOutOfRetries(p, q) && forall i | 0 <= i < n :: Restricted(es[i], p, q)
    ensures Undead(ws[n].streams, p) && forall a | a in ws[n].agents :: Unmoved(a)
  {
    if n > 0 {
      NothingDies(c, ws, es, n - 1, p, q);
      var w, e := ws[n - 1], es[n - 1];
      assert ws[n - 1 + 1] == After(c, w, e) && Enabled(w, e) && Restricted(e, p, q);
      if !e.Produce? { StepKeepsUndead(c, w.streams, w.agents[e.w], e, p, q); }
    }
  }

  /** In every run of such producers and consumers the dead-letter stream stays empty. */
  ghost predicate StaysEmpty(c: Codec, p: Body -> bool, q: int -> bool) {
    forall ws: seq<World>, es | IsRun(c, ws, es) && (forall i | 0 <= i < |es| :: Restricted(es[i], p, q)) :: ws[|es|].streams.dlq == []
  }

  /** Nothing writes a retry count other than "0" into the stream, so a message is dead-lettered
      only if it was published without retries left: the dead-letter stream stays empty in every
      run exactly if no published body has, for any limit in use, a retry count that reaches it. */
  lemma NothingIsDeadLettered(c: Codec, p: Body -> bool, q: int -> bool)
    requires Lawful(c)
    ensures StaysEmpty(c, p, q) <==> NoneOutOfRetries(p, q)
  {
    if NoneOutOfRetries(p, q) {
      forall ws: seq<World>, es | IsRun(c, ws, es) && (forall i | 0 <= i < |es| :: Restricted(es[i], p, q)) ensures ws[|es|].streams.dlq == [] {
        NothingDies(c, ws, es, |es|, p, q);
      }
    } else {
      var b, max :| p(b) && q(max) && Exhausted(b, max);
      var ws, es := FirstFailureDies(c, b, max);
      assert ws[|es|].streams.dlq != [];
      assert forall i | 0 <= i < |es| :: Restricted(es[i], p, q);
    }
  }

  lemma FirstFailureDies(c: Codec, b: Body, max: int) returns (ws: seq<World>, es: seq<Event>)
    requires Lawful(c) && Exhausted(b, max)
    ensures IsRun(c, ws, es) && ws[|es|].streams.dlq != []
    ensures es == [Produce(b), Deliver(0, 1, Works), Fail(0, Retrying(max)), WriteLetter(0, DETAILS, Works)]
  {
    ws, es := [World(Streams([], 0, []), [IDLE])], [];
    ws, es := Extend(c, ws, es, Produce(b));
    assert ws[|es|].streams.log == [Copy(0, b, Live)];
    ws, es := Extend(c, ws, es, Deliver(0, 1, Works));
    assert ws[|es|].agents == [Working(Range(0, 1))] && Range(0, 1) == [0];
    DispositionTells(b, max);
    ws, es := Extend(c, ws, es, Fail(0, Retrying(max)));
    assert ws[|es|].agents == [Moving([0])];
    ws, es := Extend(c, ws, es, WriteLetter(0, DETAILS, Works));
  }

  // ---------------------------------------------------------------------------------------
  // The last-resort ack can lose a message that had been a dead letter

  lemma Extend(c: Codec, ws: seq<World>, es: seq<Event>, e: Event) returns (ws': seq<World>, es': seq<Event>)
    requires IsPath(c, ws, es) && Enabled(ws[|es|], e)
    ensures IsPath(c, ws', es') && ws'[0] == ws[0] && ws'[|es'|] == After(c, ws[|es|], e) && es' == es + [e]
  {
    ws', es' := ws + [After(c, ws[|es|], e)], es + [e];
    forall i | 0 <= i < |es'| ensures Enabled(ws'[i], es'[i]) && ws'[i + 1] == After(c, ws'[i], es'[i]) {
      if i < |es| { assert ws'[i] == ws[i] && ws'[i + 1] == ws[i + 1]; }
    }
  }

  const DETAILS: Details := map["error" := "invalid"]

  /** A worker takes the next message, fails on it and moves it to the dead-letter stream. */
  lemma MoveNext(c: Codec, ws: seq<World>, es: seq<Event>) returns (ws': seq<World>, es': seq<Event>)
    requires IsPath(c, ws, es) && ws[|es|].agents == [IDLE] && ws[|es|].streams.cursor < |ws[|es|].streams.log|
    ensures IsPath(c, ws', es') && ws'[0] == ws[0]
    ensures var b := ws[|es|].streams; var copy := b.log[b.cursor];
            ws'[|es'|] == World(Streams(Mark(b.log, b.cursor, Away, Works), b.cursor + 1,
                                        b.dlq + [Copy(copy.root, Entry(DETAILS, c.dumps(copy.body)), Live)]), [IDLE])
  {
    var id := ws[|es|].streams.cursor;
    ws', es' := Extend(c, ws, es, Deliver(0, 1, Works));
    assert ws'[|es'|].agents == [Working(Range(id, 1))] && Range(id, 1) == [id];
    ws', es' := Extend(c, ws', es', Fail(0, AtOnce));
    assert ws'[|es'|].agents == [Moving([id])];
    ws', es' := Extend(c, ws', es', WriteLetter(0, DETAILS, Works));
    assert ws'[|es'|].agents == [MoveAcking([id], ws'[|es'|].streams.log[id].root)];
    ws', es' := Extend(c, ws', es', AckMoved(0, Works));
    assert [id][1..] == [];
    assert ws'[|es'|].agents == [IDLE];
  }

  lemma RescueNext(c: Codec, ws: seq<World>, es: seq<Event>) returns (ws': seq<World>, es': seq<Event>)
    requires IsPath(c, ws, es) && ws[|es|].agents == [IDLE] && ws[|es|].streams.cursor < |ws[|es|].streams.log|
    ensures IsPath(c, ws', es') && ws'[0] == ws[0]
    ensures var b := ws[|es|].streams;
            ws'[|es'|] == World(Streams(Mark(b.log, b.cursor, Rescued, Works), b.cursor + 1, b.dlq), [IDLE])
  {
    var id := ws[|es|].streams.cursor;
    ws', es' := Extend(c, ws, es, Deliver(0, 1, Works));
    assert ws'[|es'|].agents == [Working(Range(id, 1))] && Range(id, 1) == [id];
    ws', es' := Extend(c, ws', es', Fail(0, AtOnce));
    assert ws'[|es'|].agents == [Moving([id])];
    ws', es' := Extend(c, ws', es', WriteLetter(0, DETAILS, RaisesBefore));
    assert ws'[|es'|].agents == [Raised([id], ws'[|es'|].streams.log[id].root, false)];
    ws', es' := Extend(c, ws', es', Rescue(0, Works));
    assert [id][1..] == [];
    assert ws'[|es'|].agents == [IDLE];
  }

  /** The only letter is taken and its message published again. */
  lemma RepublishNext(c: Codec, ws: seq<World>, es: seq<Event>, letter: Copy, body: Body) returns (ws': seq<World>, es': seq<Event>)
    requires IsPath(c, ws, es) && ws[|es|].agents == [IDLE] && ws[|es|].streams.dlq == [letter]
    requires letter.status == Live && Restored(c, letter.body) == Some(body)
    ensures IsPath(c, ws', es') && ws'[0] == ws[0]
    ensures var b := ws[|es|].streams;
            ws'[|es'|] == World(b.(log := b.log + [Copy(letter.root, body, Live)]), [Deleting([0], letter.root)])
  {
    ws', es' := Extend(c, ws, es, Snapshot(0, 100));
    assert [letter][..0] == [] && Letters([letter]) == [0];
    assert ws'[|es'|].agents == [Reprocessing([0])];
    ws', es' := Extend(c, ws', es', Republish(0, Works));
    assert ws'[|es'|].agents == [Deleting([0], letter.root)];
  }

  lemma DeleteNext(c: Codec, ws: seq<World>, es: seq<Event>, letter: Copy) returns (ws': seq<World>, es': seq<Event>)
    requires IsPath(c, ws, es) && ws[|es|].agents == [Deleting([0], letter.root)]
    requires ws[|es|].streams.dlq == [letter] && letter.status == Live
    ensures IsPath(c, ws', es') && ws'[0] == ws[0]
    ensures ws'[|es'|] == World(ws[|es|].streams.(dlq := [letter.(status := Away)]), [IDLE])
  {
    ws', es' := Extend(c, ws, es, Delete(0, Works));
    var none: seq<Id> := [];
    assert [0][1..] == none;
    assert ws'[|es'|].agents == [Reprocessing([])];
    ws', es' := Extend(c, ws', es', Finish(0));
    assert ws'[|es'|].agents == [IDLE];
  }

  /** A message is dead-lettered and reprocessed, fails again, its second move writes nothing and
      the last-resort ack succeeds: no live copy, handled copy or dead letter is left. */
  lemma RescueLosesMessage(c: Codec) returns (ws: seq<World>, es: seq<Event>)
    requires Lawful(c)
    ensures IsRun(c, ws, es)
    ensures IsRoot(ws[|es|].streams, 0) && !Survives(ws[|es|].streams, 0)
    ensures |ws[|es|].streams.dlq| == 1
  {
    ws, es := [World(Streams([], 0, []), [IDLE])], [];
    ws, es := Extend(c, ws, es, Produce(map[]));
    assert ws[|es|].streams.log == [Copy(0, map[], Live)];
    ws, es := MoveNext(c, ws, es);
    assert ws[|es|].streams.log == [Copy(0, map[], Away)];
    var letter := Copy(0, Entry(DETAILS, c.dumps(map[])), Live);
    RestoredFromLetter(c, DETAILS, map[]);
    ws, es := RepublishNext(c, ws, es, letter, Reset(map[]));
    ws, es := DeleteNext(c, ws, es, letter);
    ws, es := RescueNext(c, ws, es);
    assert ws[|es|].streams.log == [Copy(0, map[], Away), Copy(0, Reset(map[]), Rescued)];
  }
}
