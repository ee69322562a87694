/** `compare_sentiment` of `src/analytics/competitive_analysis.py`, which refolds GROUP BY rows,
    against the direct counts and averages of `_aggregate_brand_metrics` in
    `services/competitive_service/app/main.py`. Scores are exact reals; `round` is whatever
    rounding both sides apply. */
module CompetitiveAnalysis {
  import opened Wrappers

  type Project = int

  datatype Sentiment = Positive | Negative | Neutral | Mixed

  datatype Mention = Mention(project: Project, sentiment: Sentiment, score: real)

  // ---------------------------------------------------------------------------------------
  // The direct form

  function Count(ms: seq<Mention>, p: Project, s: Sentiment): nat {
    if ms == [] then 0
    else
      var last := ms[|ms| - 1];
      Count(ms[..|ms| - 1], p, s) + (if last.project == p && last.sentiment == s then 1 else 0)
  }

  function ScoreSum(ms: seq<Mention>, p: Project, s: Sentiment): real {
    if ms == [] then 0.0
    else
      var last := ms[|ms| - 1];
      ScoreSum(ms[..|ms| - 1], p, s) + (if last.project == p && last.sentiment == s then last.score else 0.0)
  }

  function CountAll(ms: seq<Mention>, p: Project): nat {
    if ms == [] then 0
    else CountAll(ms[..|ms| - 1], p) + (if ms[|ms| - 1].project == p then 1 else 0)
  }

  function ScoreSumAll(ms: seq<Mention>, p: Project): real {
    if ms == [] then 0.0
    else ScoreSumAll(ms[..|ms| - 1], p) + (if ms[|ms| - 1].project == p then ms[|ms| - 1].score else 0.0)
  }

  datatype Summary = Summary(project: Project, total: nat, positive: nat, negative: nat, neutral: nat, mixed: nat,
                             positiveRatio: real, negativeRatio: real, avgScore: real)

  function Ratio(round: real -> real, x: real, total: nat): real {
    if total > 0 then round(x / total as real) else 0.0
  }

  /** Counting and averaging the mentions of a project directly. */
  function Direct(round: real -> real, ms: seq<Mention>, p: Project): Summary {
    var total := CountAll(ms, p);
    var positive, negative := Count(ms, p, Positive), Count(ms, p, Negative);
    Summary(p, total, positive, negative, Count(ms, p, Neutral), Count(ms, p, Mixed),
            Ratio(round, positive as real, total), Ratio(round, negative as real, total),
            Ratio(round, ScoreSumAll(ms, p), total))
  }

  // ---------------------------------------------------------------------------------------
  // The folded form

  datatype Row = Row(project: Project, sentiment: Sentiment, count: nat, avgScore: real)

  /** What GROUP BY project, sentiment returns, in any order: one row per group that occurs,
      with its count and its average score. */
  ghost predicate IsGroupBy(rows: seq<Row>, ms: seq<Mention>, projects: seq<Project>) {
    GroupsMatch(rows, ms, projects) && AveragesMatch(rows, ms)
  }

  ghost predicate GroupsMatch(rows: seq<Row>, ms: seq<Mention>, projects: seq<Project>) {
    && OneRowPerGroup(rows)
    && (forall r | r in rows :: r.project in projects && r.count > 0 && r.count == Count(ms, r.project, r.sentiment))
    && (forall p, s {:trigger HasRow(rows, p, s)} | p in projects && Count(ms, p, s) > 0 :: HasRow(rows, p, s))
  }

  ghost predicate HasRow(rows: seq<Row>, p: Project, s: Sentiment) {
    exists r :: r in rows && For(r, p, s)
  }

  ghost predicate AveragesMatch(rows: seq<Row>, ms: seq<Mention>) {
    forall r | r in rows :: r.count > 0 && IsAverage(r.avgScore, ScoreSum(ms, r.project, r.sentiment), r.count)
  }

  predicate IsAverage(avg: real, sum: real, n: nat)
    requires n > 0
  {
    avg == sum / n as real
  }

  predicate For(r: Row, p: Project, s: Sentiment) { r.project == p && r.sentiment == s }

  ghost predicate OneRowPerGroup(rows: seq<Row>) {
    rows == [] ||
    (var front, r := rows[..|rows| - 1], rows[|rows| - 1];
     OneRowPerGroup(front) && forall q | q in front :: !For(q, r.project, r.sentiment))
  }

  datatype Entry = Entry(total: nat, positive: nat, negative: nat, neutral: nat, mixed: nat, scoreSum: real) {
    function Of(s: Sentiment): nat {
      match s
      case Positive => positive
      case Negative => negative
      case Neutral => neutral
      case Mixed => mixed
    }

    function Set(s: Sentiment, n: nat): Entry {
      match s
      case Positive => this.(positive := n)
      case Negative => this.(negative := n)
      case Neutral => this.(neutral := n)
      case Mixed => this.(mixed := n)
    }
  }

  const EMPTY := Entry(0, 0, 0, 0, 0, 0.0)

  function EntryOf(data: map<Project, Entry>, p: Project): Entry {
    if p in data then data[p] else EMPTY
  }

  function AddRow(e: Entry, r: Row): Entry {
    var e' := e.Set(r.sentiment, r.count);
    e'.(total := e.total + r.count, scoreSum := e.scoreSum + r.avgScore * r.count as real)
  }

  function Fold(rows: seq<Row>): map<Project, Entry> {
    if rows == [] then map[]
    else
      var data, r := Fold(rows[..|rows| - 1]), rows[|rows| - 1];
      data[r.project := AddRow(EntryOf(data, r.project), r)]
  }

  function Report(round: real -> real, p: Project, e: Entry): Summary {
    Summary(p, e.total, e.positive, e.negative, e.neutral, e.mixed,
            Ratio(round, e.positive as real, e.total), Ratio(round, e.negative as real, e.total),
            Ratio(round, e.scoreSum, e.total))
  }

  /** Whether a project that has rows is listed twice. */
  ghost predicate ListedTwice(rows: seq<Row>, projects: seq<Project>) {
    exists i, j :: 0 <= i < j < |projects| && projects[i] == projects[j] && projects[i] in Fold(rows)
  }

  /** `compare_sentiment` after its query. The helper field of an entry is deleted when the
      entry is reported, so reporting it a second time raises a KeyError (`None`). */
  method CompareSentiment(round: real -> real, projects: seq<Project>, rows: seq<Row>) returns (r: Option<seq<Summary>>)
    ensures r.None? <==> ListedTwice(rows, projects)
    ensures r.Some? ==> |r.value| == |projects|
    ensures r.Some? ==> forall i | 0 <= i < |projects| :: r.value[i] == Report(round, projects[i], EntryOf(Fold(rows), projects[i]))
  {
    if |projects| == 0 {
      return Some([]);
    }
    var data: map<Project, Entry> := map[];
    for i := 0 to |rows|
      invariant data == Fold(rows[..i])
    {
      assert rows[..i + 1][..i] == rows[..i];
      var row := rows[i];
      if row.project !in data {
        data := data[row.project := EMPTY];
      }
      data := data[row.project := AddRow(data[row.project], row)];
    }
    assert rows[..|rows|] == rows;
    var results: seq<Summary> := [];
    var reported: set<Project> := {};
    for i := 0 to |projects|
      invariant |results| == i && reported == set j | 0 <= j < i && projects[j] in data :: projects[j]
      invariant forall j | 0 <= j < i :: results[j] == Report(round, projects[j], EntryOf(data, projects[j]))
      invariant forall j, k | 0 <= j < k < i && projects[j] == projects[k] :: projects[j] !in data
    {
      var pid := projects[i];
      if pid in reported {
        return None;
      }
      results := results + [Report(round, pid, EntryOf(data, pid))];
      if pid in data {
        reported := reported + {pid};
      }
    }
    return Some(results);
  }

  /** Rows that carry the count and the score sum of a group, or nothing. */
  function RowCount(rows: seq<Row>, p: Project, s: Sentiment): nat {
    if rows == [] then 0
    else
      var r := rows[|rows| - 1];
      if r.project == p && r.sentiment == s then r.count else RowCount(rows[..|rows| - 1], p, s)
  }

  function RowSum(rows: seq<Row>, p: Project, s: Sentiment): real {
    if rows == [] then 0.0
    else
      var r := rows[|rows| - 1];
      if r.project == p && r.sentiment == s then r.avgScore * r.count as real else RowSum(rows[..|rows| - 1], p, s)
  }

  lemma {:induction false} NoRow(rows: seq<Row>, p: Project, s: Sentiment)
    requires forall q | q in rows :: !For(q, p, s)
    ensures RowCount(rows, p, s) == 0 && RowSum(rows, p, s) == 0.0
  {
    if rows != [] {
      var front := rows[..|rows| - 1];
      assert forall q | q in front :: q in rows;
      assert rows[|rows| - 1] in rows;
      NoRow(front, p, s);
    }
  }

  lemma {:induction false} TheRow(rows: seq<Row>, r: Row)
    requires OneRowPerGroup(rows) && r in rows
    ensures RowCount(rows, r.project, r.sentiment) == r.count
    ensures RowSum(rows, r.project, r.sentiment) == r.avgScore * r.count as real
  {
    var front, last := rows[..|rows| - 1], rows[|rows| - 1];
    if r != last {
      assert r in front;
      assert For(r, r.project, r.sentiment) && !For(r, last.project, last.sentiment);
      TheRow(front, r);
    }
  }

  /** Folding adds up, per project, what the rows carry. */
  lemma {:induction false} FoldAddsUp(rows: seq<Row>, p: Project)
    requires OneRowPerGroup(rows)
    ensures var e := EntryOf(Fold(rows), p);
            && (forall s :: e.Of(s) == RowCount(rows, p, s))
            && e.total == e.positive + e.negative + e.neutral + e.mixed
            && e.scoreSum == RowSum(rows, p, Positive) + RowSum(rows, p, Negative) + RowSum(rows, p, Neutral) + RowSum(rows, p, Mixed)
  {
    if rows != [] {
      var front, r := rows[..|rows| - 1], rows[|rows| - 1];
      FoldAddsUp(front, p);
      NoRow(front, r.project, r.sentiment);
      assert r.project == p ==> EntryOf(Fold(front), p).Of(r.sentiment) == 0;
    }
  }

  /** The rows carry the count and the score sum of a group. */
  ghost predicate Carried(rows: seq<Row>, ms: seq<Mention>, p: Project, s: Sentiment) {
    RowCount(rows, p, s) == Count(ms, p, s) && RowSum(rows, p, s) == ScoreSum(ms, p, s)
  }

  lemma AverageTimesCount(rows: seq<Row>, ms: seq<Mention>, r: Row)
    requires AveragesMatch(rows, ms) && r in rows
    ensures r.avgScore * r.count as real == ScoreSum(ms, r.project, r.sentiment)
  {
    AverageBack(r.avgScore, ScoreSum(ms, r.project, r.sentiment), r.count);
  }

  lemma EmptyGroupCarried(rows: seq<Row>, ms: seq<Mention>, projects: seq<Project>, p: Project, s: Sentiment)
    requires GroupsMatch(rows, ms, projects) && Count(ms, p, s) == 0
    ensures Carried(rows, ms, p, s)
  {
    NoRow(rows, p, s);
    EmptyGroupSumsToZero(ms, p, s);
  }

  lemma GroupCarried(rows: seq<Row>, ms: seq<Mention>, projects: seq<Project>, p: Project, s: Sentiment)
    requires GroupsMatch(rows, ms, projects) && AveragesMatch(rows, ms) && p in projects
    ensures Carried(rows, ms, p, s)
  {
    if Count(ms, p, s) == 0 {
      EmptyGroupCarried(rows, ms, projects, p, s);
    } else {
      assert HasRow(rows, p, s);
      var r :| r in rows && For(r, p, s);
      TheRow(rows, r);
      AverageTimesCount(rows, ms, r);
    }
  }

  lemma AverageBack(avg: real, sum: real, n: nat)
    requires n > 0 && IsAverage(avg, sum, n)
    ensures avg * n as real == sum
  {
  }

  lemma {:induction false} GroupsPartition(ms: seq<Mention>, p: Project)
    ensures CountAll(ms, p) == Count(ms, p, Positive) + Count(ms, p, Negative) + Count(ms, p, Neutral) + Count(ms, p, Mixed)
    ensures ScoreSumAll(ms, p) == ScoreSum(ms, p, Positive) + ScoreSum(ms, p, Negative) + ScoreSum(ms, p, Neutral) + ScoreSum(ms, p, Mixed)
  {
    if ms != [] { GroupsPartition(ms[..|ms| - 1], p); }
  }

  lemma {:induction false} EmptyGroupSumsToZero(ms: seq<Mention>, p: Project, s: Sentiment)
    requires Count(ms, p, s) == 0
    ensures ScoreSum(ms, p, s) == 0.0
  {
    if ms != [] { EmptyGroupSumsToZero(ms[..|ms| - 1], p, s); }
  }

  lemma EntryCounts(rows: seq<Row>, ms: seq<Mention>, projects: seq<Project>, p: Project)
    requires IsGroupBy(rows, ms, projects) && p in projects
    ensures EntryOf(Fold(rows), p) == Entry(CountAll(ms, p), Count(ms, p, Positive), Count(ms, p, Negative),
                                            Count(ms, p, Neutral), Count(ms, p, Mixed), ScoreSumAll(ms, p))
  {
    GroupCarried(rows, ms, projects, p, Positive);
    GroupCarried(rows, ms, projects, p, Negative);
    GroupCarried(rows, ms, projects, p, Neutral);
    GroupCarried(rows, ms, projects, p, Mixed);
    FoldAddsUp(rows, p);
    GroupsPartition(ms, p);
    var e := EntryOf(Fold(rows), p);
    assert e.Of(Positive) == e.positive && e.Of(Negative) == e.negative && e.Of(Neutral) == e.neutral && e.Of(Mixed) == e.mixed;
  }

  /** Regrouping preserves meaning: for every mention list and every order of the rows, the
      folded entry of a listed project reports what direct counting reports. */
  lemma FoldEqualsDirect(round: real -> real, rows: seq<Row>, ms: seq<Mention>, projects: seq<Project>, p: Project)
    requires IsGroupBy(rows, ms, projects) && p in projects
    ensures Report(round, p, EntryOf(Fold(rows), p)) == Direct(round, ms, p)
  {
    EntryCounts(rows, ms, projects, p);
  }

  lemma FoldedWhenMentioned(rows: seq<Row>, ms: seq<Mention>, projects: seq<Project>, p: Project)
    requires GroupsMatch(rows, ms, projects) && p in projects
    ensures p in Fold(rows) <==> CountAll(ms, p) > 0
  {
    InFoldWhenRow(rows, p);
    GroupsPartition(ms, p);
    if CountAll(ms, p) > 0 {
      var s :| Count(ms, p, s) > 0;
      assert HasRow(rows, p, s);
      var r :| r in rows && For(r, p, s);
      assert r.project == p;
    } else {
      forall r | r in rows ensures r.project != p {
        assert r.count == Count(ms, r.project, r.sentiment);
        match r.sentiment { case Positive => case Negative => case Neutral => case Mixed => }
      }
    }
  }

  /** The comparison fails exactly when a project that has mentions is listed twice. */
  lemma FailsExactlyOnRepeatedProject(rows: seq<Row>, ms: seq<Mention>, projects: seq<Project>)
    requires IsGroupBy(rows, ms, projects)
    ensures ListedTwice(rows, projects) <==>
            exists i, j :: 0 <= i < j < |projects| && projects[i] == projects[j] && CountAll(ms, projects[i]) > 0
  {
    forall i | 0 <= i < |projects| ensures projects[i] in Fold(rows) <==> CountAll(ms, projects[i]) > 0 {
      FoldedWhenMentioned(rows, ms, projects, projects[i]);
    }
  }

  lemma {:induction false} InFoldWhenRow(rows: seq<Row>, p: Project)
    ensures p in Fold(rows) <==> exists r :: r in rows && r.project == p
  {
    if rows != [] {
      var n := |rows| - 1;
      InFoldWhenRow(rows[..n], p);
      assert forall q | q in rows :: q in rows[..n] || q == rows[n];
    }
  }

  /** `q` is `x` divided by `n`, or zero when there is nothing to divide. */
  predicate Share(q: real, x: real, n: nat) { q * n as real == x && (n == 0 ==> q == 0.0) }

  /** What a summary says before rounding: counts, their ratios to the total, and the average. */
  ghost predicate Tells(s: Summary, p: Project, e: Entry) {
    && s.project == p && s.total == e.total
    && s.positive == e.positive && s.negative == e.negative && s.neutral == e.neutral && s.mixed == e.mixed
    && Share(s.positiveRatio, e.positive as real, e.total)
    && Share(s.negativeRatio, e.negative as real, e.total)
    && Share(s.avgScore, e.scoreSum, e.total)
  }

  /** The summary of a listed project has the counts of its mentions, their ratios and the average
      of their scores. */
  lemma SummaryTells(rows: seq<Row>, ms: seq<Mention>, projects: seq<Project>, p: Project)
    requires IsGroupBy(rows, ms, projects) && p in projects
    ensures Tells(Report(x => x, p, EntryOf(Fold(rows), p)), p,
                  Entry(CountAll(ms, p), Count(ms, p, Positive), Count(ms, p, Negative),
                        Count(ms, p, Neutral), Count(ms, p, Mixed), ScoreSumAll(ms, p)))
  {
    EntryCounts(rows, ms, projects, p);
    NoMentionsNoScores(ms, p);
    ReportTells(x => x, p, EntryOf(Fold(rows), p));
  }

  lemma NoMentionsNoScores(ms: seq<Mention>, p: Project)
    ensures Count(ms, p, Positive) <= CountAll(ms, p) && Count(ms, p, Negative) <= CountAll(ms, p)
    ensures CountAll(ms, p) == 0 ==> ScoreSumAll(ms, p) == 0.0
  {
    GroupsPartition(ms, p);
    if CountAll(ms, p) == 0 {
      EmptyGroupSumsToZero(ms, p, Positive);
      EmptyGroupSumsToZero(ms, p, Negative);
      EmptyGroupSumsToZero(ms, p, Neutral);
      EmptyGroupSumsToZero(ms, p, Mixed);
    }
  }

  lemma ReportTells(round: real -> real, p: Project, e: Entry)
    requires e.positive <= e.total && e.negative <= e.total && (e.total == 0 ==> e.scoreSum == 0.0)
    requires forall x :: round(x) == x
    ensures Tells(Report(round, p, e), p, e)
  {
    RatioIsShare(round, e.positive as real, e.total);
    RatioIsShare(round, e.negative as real, e.total);
    RatioIsShare(round, e.scoreSum, e.total);
  }

  lemma RatioIsShare(round: real -> real, x: real, n: nat)
    requires (n == 0 ==> x == 0.0) && forall y :: round(y) == y
    ensures Share(Ratio(round, x, n), x, n)
  {
  }
}
