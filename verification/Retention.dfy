/** `enforce_retention_cleanup` and `execute_retention` of `services/audit_service/app/main.py`.
    A table is a sequence of rows; times are seconds. */
module Retention {
  import opened Wrappers

  type Org = int
  type Project = int
  type Time = int

  datatype AuditLog = AuditLog(id: int, org: Org, createdAt: Time)

  /** A mention or a report: a row of a project. */
  datatype Item = Item(id: int, project: Project, at: Time)

  /** Retention days; an organisation has at most one policy (a unique column). */
  datatype Policy = Policy(org: Org, mentionDays: int, auditDays: int, reportDays: int)

  datatype Tables = Tables(audits: seq<AuditLog>, mentions: seq<Item>, reports: seq<Item>)

  datatype Detail = Detail(org: Option<Org>, audits: nat, mentions: nat, reports: nat)

  datatype Summary = Summary(organizations: nat, audits: nat, mentions: nat, reports: nat, details: seq<Detail>)

  const DAY: int := 86400

  function Cutoff(now: Time, days: int): Time { now - days * DAY }

  /** DELETE WHERE: the rows that stay. */
  function Keep<T>(rows: seq<T>, doomed: T -> bool): seq<T> {
    if rows == [] then []
    else Keep(rows[..|rows| - 1], doomed) + (if doomed(rows[|rows| - 1]) then [] else [rows[|rows| - 1]])
  }

  /** ... and its row count. */
  function Doomed<T>(rows: seq<T>, doomed: T -> bool): (n: nat)
    ensures n == |rows| - |Keep(rows, doomed)|
  {
    if rows == [] then 0
    else Doomed(rows[..|rows| - 1], doomed) + (if doomed(rows[|rows| - 1]) then 1 else 0)
  }

  lemma {:induction false} KeepTwice<T>(rows: seq<T>, p: T -> bool, q: T -> bool, r: T -> bool)
    requires forall x | x in rows :: r(x) <==> p(x) || q(x)
    ensures Keep(Keep(rows, p), q) == Keep(rows, r)
  {
    if rows != [] {
      var front, x := rows[..|rows| - 1], rows[|rows| - 1];
      KeepTwice(front, p, q, r);
      if !p(x) {
        assert Keep(rows, p)[..|Keep(rows, p)| - 1] == Keep(front, p);
      } else {
        assert Keep(rows, p) == Keep(front, p);
      }
    }
  }

  lemma {:induction false} KeepSame<T>(rows: seq<T>, p: T -> bool, q: T -> bool)
    requires forall x | x in rows :: p(x) <==> q(x)
    ensures Keep(rows, p) == Keep(rows, q) && Doomed(rows, p) == Doomed(rows, q)
  {
    if rows != [] { KeepSame(rows[..|rows| - 1], p, q); }
  }

  lemma {:induction false} KeepNone<T>(rows: seq<T>, p: T -> bool)
    requires forall x | x in rows :: !p(x)
    ensures Keep(rows, p) == rows && Doomed(rows, p) == 0
  {
    if rows != [] { KeepNone(rows[..|rows| - 1], p); }
  }

  lemma {:induction false} KeptRows<T>(rows: seq<T>, p: T -> bool)
    ensures forall x :: x in Keep(rows, p) <==> x in rows && !p(x)
  {
    if rows != [] {
      var front := rows[..|rows| - 1];
      KeptRows(front, p);
      assert forall x :: x in rows <==> x in front || x == rows[|rows| - 1];
    }
  }

  /** Deleting other rows first does not change how many rows a deletion finds. */
  lemma {:induction false} DoomedElsewhere<T>(rows: seq<T>, p: T -> bool, q: T -> bool)
    requires forall x | x in rows :: !(p(x) && q(x))
    ensures Doomed(Keep(rows, p), q) == Doomed(rows, q)
  {
    if rows != [] {
      var front, x := rows[..|rows| - 1], rows[|rows| - 1];
      DoomedElsewhere(front, p, q);
      if !p(x) {
        assert Keep(rows, p)[..|Keep(rows, p)| - 1] == Keep(front, p);
      } else {
        assert Keep(rows, p) == Keep(front, p);
      }
    }
  }

  // ---------------------------------------------------------------------------------------
  // What is due for deletion, row by row

  ghost predicate UniqueOrgs(policies: seq<Policy>) {
    forall i, j | 0 <= i < j < |policies| :: policies[i].org != policies[j].org
  }

  function PolicyOf(policies: seq<Policy>, org: Org): Option<Policy> {
    if policies == [] then None
    else if policies[|policies| - 1].org == org then Some(policies[|policies| - 1])
    else PolicyOf(policies[..|policies| - 1], org)
  }

  function AuditDue(p: Policy, now: Time): AuditLog -> bool {
    (r: AuditLog) => r.org == p.org && r.createdAt < Cutoff(now, p.auditDays)
  }

  predicate Owned(projects: map<Project, Org>, i: Item, org: Org) {
    i.project in projects && projects[i.project] == org
  }

  function ItemDue(projects: map<Project, Org>, org: Org, days: int, now: Time): Item -> bool {
    (i: Item) => Owned(projects, i, org) && i.at < Cutoff(now, days)
  }

  /** An audit log is due when it is older than its organisation's cutoff, and than the default
      cutoff when the organisation has no policy. */
  function AuditExpired(policies: seq<Policy>, defaultDays: int, now: Time): AuditLog -> bool {
    (r: AuditLog) =>
      match PolicyOf(policies, r.org)
      case Some(p) => r.createdAt < Cutoff(now, p.auditDays)
      case None => r.createdAt < Cutoff(now, defaultDays)
  }

  /** Mentions and reports are due only under a policy of the organisation that owns their
      project. */
  function ItemExpired(projects: map<Project, Org>, policies: seq<Policy>, days: Policy -> int, now: Time): Item -> bool {
    (i: Item) =>
      i.project in projects &&
      match PolicyOf(policies, projects[i.project])
      case Some(p) => i.at < Cutoff(now, days(p))
      case None => false
  }

  const MENTION_DAYS: Policy -> int := (p: Policy) => p.mentionDays
  const REPORT_DAYS: Policy -> int := (p: Policy) => p.reportDays

  /** Exactly the rows that are due are gone. */
  function Cleaned(t: Tables, projects: map<Project, Org>, policies: seq<Policy>, defaultDays: int, now: Time): Tables {
    Tables(Keep(t.audits, AuditExpired(policies, defaultDays, now)),
           Keep(t.mentions, ItemExpired(projects, policies, MENTION_DAYS, now)),
           Keep(t.reports, ItemExpired(projects, policies, REPORT_DAYS, now)))
  }

  /** What one policy deletes on its own. */
  function UnderPolicy(t: Tables, projects: map<Project, Org>, p: Policy, now: Time): Tables {
    Tables(Keep(t.audits, AuditDue(p, now)),
           Keep(t.mentions, ItemDue(projects, p.org, p.mentionDays, now)),
           Keep(t.reports, ItemDue(projects, p.org, p.reportDays, now)))
  }

  function DetailOf(t: Tables, projects: map<Project, Org>, p: Policy, now: Time): Detail {
    Detail(Some(p.org), Doomed(t.audits, AuditDue(p, now)),
           Doomed(t.mentions, ItemDue(projects, p.org, p.mentionDays, now)),
           Doomed(t.reports, ItemDue(projects, p.org, p.reportDays, now)))
  }

  /** What the policies delete together, before the default rule. */
  function UnderPolicies(t: Tables, projects: map<Project, Org>, policies: seq<Policy>, now: Time): Tables {
    Tables(Keep(t.audits, AuditExpiredUnder(policies, now)),
           Keep(t.mentions, ItemExpired(projects, policies, MENTION_DAYS, now)),
           Keep(t.reports, ItemExpired(projects, policies, REPORT_DAYS, now)))
  }

  function AuditExpiredUnder(policies: seq<Policy>, now: Time): AuditLog -> bool {
    (r: AuditLog) =>
      match PolicyOf(policies, r.org)
      case Some(p) => r.createdAt < Cutoff(now, p.auditDays)
      case None => false
  }

  function DefaultDue(orgs: set<Org>, defaultDays: int, now: Time): AuditLog -> bool {
    (r: AuditLog) => r.org !in orgs && r.createdAt < Cutoff(now, defaultDays)
  }

  function Orgs(policies: seq<Policy>): set<Org> { set p | p in policies :: p.org }

  lemma {:induction false} PolicyOfListed(policies: seq<Policy>, org: Org)
    ensures PolicyOf(policies, org).Some? <==> org in Orgs(policies)
    ensures PolicyOf(policies, org).Some? ==> PolicyOf(policies, org).value in policies && PolicyOf(policies, org).value.org == org
  {
    if policies != [] {
      var front, last := policies[..|policies| - 1], policies[|policies| - 1];
      PolicyOfListed(front, org);
      assert forall p | p in policies :: p in front || p == last;
      assert last in policies;
      assert forall p | p in front :: p in policies;
    }
  }

  lemma PolicySnoc(ps: seq<Policy>, p: Policy)
    requires UniqueOrgs(ps + [p])
    ensures PolicyOf(ps, p.org) == None
    ensures forall org :: PolicyOf(ps + [p], org) == if org == p.org then Some(p) else PolicyOf(ps, org)
  {
    assert (ps + [p])[..|ps|] == ps;
    PolicyOfListed(ps, p.org);
    forall q | q in ps ensures q.org != p.org {
      var i :| 0 <= i < |ps| && ps[i] == q;
      assert (ps + [p])[i].org != (ps + [p])[|ps|].org;
    }
  }

  lemma NoPolicies(t: Tables, projects: map<Project, Org>, now: Time)
    ensures UnderPolicies(t, projects, [], now) == t
  {
    KeepNone(t.audits, AuditExpiredUnder([], now));
    forall i: Item
      ensures !ItemExpired(projects, [], MENTION_DAYS, now)(i) && !ItemExpired(projects, [], REPORT_DAYS, now)(i)
    {
      if i.project in projects { assert PolicyOf([], projects[i.project]) == None; }
    }
    KeepNone(t.mentions, ItemExpired(projects, [], MENTION_DAYS, now));
    KeepNone(t.reports, ItemExpired(projects, [], REPORT_DAYS, now));
  }

  /** Policies act one after the other as they act together: no policy of one organisation
      touches, or is affected by, what another one deletes. */
  lemma OnePolicyMore(t: Tables, projects: map<Project, Org>, ps: seq<Policy>, p: Policy, now: Time)
    requires UniqueOrgs(ps + [p])
    ensures UnderPolicy(UnderPolicies(t, projects, ps, now), projects, p, now) == UnderPolicies(t, projects, ps + [p], now)
    ensures DetailOf(UnderPolicies(t, projects, ps, now), projects, p, now) == DetailOf(t, projects, p, now)
  {
    PolicySnoc(ps, p);
    KeepTwice(t.audits, AuditExpiredUnder(ps, now), AuditDue(p, now), AuditExpiredUnder(ps + [p], now));
    DoomedElsewhere(t.audits, AuditExpiredUnder(ps, now), AuditDue(p, now));
    OnePolicyMoreItems(t.mentions, projects, ps, p, MENTION_DAYS, now);
    OnePolicyMoreItems(t.reports, projects, ps, p, REPORT_DAYS, now);
  }

  lemma OnePolicyMoreItems(rows: seq<Item>, projects: map<Project, Org>, ps: seq<Policy>, p: Policy, days: Policy -> int, now: Time)
    requires UniqueOrgs(ps + [p])
    ensures Keep(Keep(rows, ItemExpired(projects, ps, days, now)), ItemDue(projects, p.org, days(p), now))
         == Keep(rows, ItemExpired(projects, ps + [p], days, now))
    ensures Doomed(Keep(rows, ItemExpired(projects, ps, days, now)), ItemDue(projects, p.org, days(p), now))
         == Doomed(rows, ItemDue(projects, p.org, days(p), now))
  {
    PolicySnoc(ps, p);
    KeepTwice(rows, ItemExpired(projects, ps, days, now), ItemDue(projects, p.org, days(p), now), ItemExpired(projects, ps + [p], days, now));
    DoomedElsewhere(rows, ItemExpired(projects, ps, days, now), ItemDue(projects, p.org, days(p), now));
  }

  lemma DefaultMore(t: Tables, policies: seq<Policy>, defaultDays: int, now: Time)
    ensures Keep(Keep(t.audits, AuditExpiredUnder(policies, now)), DefaultDue(Orgs(policies), defaultDays, now))
         == Keep(t.audits, AuditExpired(policies, defaultDays, now))
    ensures Doomed(Keep(t.audits, AuditExpiredUnder(policies, now)), DefaultDue(Orgs(policies), defaultDays, now))
         == Doomed(t.audits, DefaultDue(Orgs(policies), defaultDays, now))
  {
    forall r: AuditLog ensures PolicyOf(policies, r.org).Some? <==> r.org in Orgs(policies) {
      PolicyOfListed(policies, r.org);
    }
    KeepTwice(t.audits, AuditExpiredUnder(policies, now), DefaultDue(Orgs(policies), defaultDays, now), AuditExpired(policies, defaultDays, now));
    DoomedElsewhere(t.audits, AuditExpiredUnder(policies, now), DefaultDue(Orgs(policies), defaultDays, now));
  }

  function Details(t: Tables, projects: map<Project, Org>, policies: seq<Policy>, now: Time): seq<Detail> {
    if policies == [] then []
    else Details(t, projects, policies[..|policies| - 1], now) + [DetailOf(t, projects, policies[|policies| - 1], now)]
  }

  /** Adding up a column of the details. */
  function Total(details: seq<Detail>, column: Detail -> nat): nat {
    if details == [] then 0
    else Total(details[..|details| - 1], column) + column(details[|details| - 1])
  }

  const AUDITS: Detail -> nat := (d: Detail) => d.audits
  const MENTIONS: Detail -> nat := (d: Detail) => d.mentions
  const REPORTS: Detail -> nat := (d: Detail) => d.reports

  function SummaryOf(organizations: nat, details: seq<Detail>): Summary {
    Summary(organizations, Total(details, AUDITS), Total(details, MENTIONS), Total(details, REPORTS), details)
  }

  function Report(t: Tables, projects: map<Project, Org>, policies: seq<Policy>, defaultDays: int, now: Time): Summary {
    var byDefault := Doomed(t.audits, DefaultDue(Orgs(policies), defaultDays, now));
    SummaryOf(|policies|, Details(t, projects, policies, now) + (if byDefault > 0 then [Detail(None, byDefault, 0, 0)] else []))
  }

  lemma TotalSnoc(details: seq<Detail>, d: Detail)
    ensures SummaryOf(0, details + [d]).audits == SummaryOf(0, details).audits + d.audits
    ensures SummaryOf(0, details + [d]).mentions == SummaryOf(0, details).mentions + d.mentions
    ensures SummaryOf(0, details + [d]).reports == SummaryOf(0, details).reports + d.reports
  {
    assert (details + [d])[..|details|] == details;
  }

  lemma Advance(t: Tables, projects: map<Project, Org>, policies: seq<Policy>, i: nat, now: Time)
    requires UniqueOrgs(policies) && i < |policies|
    ensures var done, more := policies[..i], policies[..i + 1];
            var u, details := UnderPolicies(t, projects, done, now), Details(t, projects, done, now);
            var d, s := DetailOf(u, projects, policies[i], now), SummaryOf(i, details);
            && UnderPolicy(u, projects, policies[i], now) == UnderPolicies(t, projects, more, now)
            && SummaryOf(i + 1, Details(t, projects, more, now)) ==
               Summary(i + 1, s.audits + d.audits, s.mentions + d.mentions, s.reports + d.reports, details + [d])
  {
    assert policies[..i + 1] == policies[..i] + [policies[i]];
    assert policies[..i + 1][..i] == policies[..i];
    OnePolicyMore(t, projects, policies[..i], policies[i], now);
    TotalSnoc(Details(t, projects, policies[..i], now), DetailOf(t, projects, policies[i], now));
  }

  /** The last entry of the report, for the organisations without a policy. */
  lemma DefaultSummed(t: Tables, projects: map<Project, Org>, policies: seq<Policy>, defaultDays: int, now: Time)
    ensures var n := Doomed(t.audits, DefaultDue(Orgs(policies), defaultDays, now));
            var s := SummaryOf(|policies|, Details(t, projects, policies, now));
            Report(t, projects, policies, defaultDays, now) ==
            if n > 0 then s.(audits := s.audits + n, details := s.details + [Detail(None, n, 0, 0)]) else s
  {
    var n := Doomed(t.audits, DefaultDue(Orgs(policies), defaultDays, now));
    var details := Details(t, projects, policies, now);
    TotalSnoc(details, Detail(None, n, 0, 0));
    assert details + [] == details;
  }

  class Service {
    const projects: map<Project, Org>
    const policies: seq<Policy>
    const defaultDays: int
    var audits: seq<AuditLog>
    var mentions: seq<Item>
    var reports: seq<Item>

    function View(): Tables
      reads this
    {
      Tables(audits, mentions, reports)
    }

    constructor (t: Tables, projects: map<Project, Org>, policies: seq<Policy>, defaultDays: int)
      ensures View() == t && this.projects == projects && this.policies == policies && this.defaultDays == defaultDays
    {
      audits, mentions, reports := t.audits, t.mentions, t.reports;
      this.projects, this.policies, this.defaultDays := projects, policies, defaultDays;
    }

    method DeleteAudits(doomed: AuditLog -> bool) returns (rowCount: nat)
      modifies this`audits
      ensures audits == Keep(old(audits), doomed) && rowCount == Doomed(old(audits), doomed)
    {
      rowCount := Doomed(audits, doomed);
      audits := Keep(audits, doomed);
    }

    /** The deletions for one organisation with a policy, as both entry points make them. */
    method DeleteFor(p: Policy, now: Time) returns (d: Detail)
      modifies this`audits, this`mentions, this`reports
      ensures View() == UnderPolicy(old(View()), projects, p, now)
      ensures d == DetailOf(old(View()), projects, p, now)
    {
      var auditsDeleted := DeleteAudits(AuditDue(p, now));
      var mentionsDeleted, reportsDeleted := 0, 0;
      var projectIds := set id | id in projects && projects[id] == p.org;
      if projectIds != {} {
        mentionsDeleted := Doomed(mentions, ItemDue(projects, p.org, p.mentionDays, now));
        mentions := Keep(mentions, ItemDue(projects, p.org, p.mentionDays, now));
        reportsDeleted := Doomed(reports, ItemDue(projects, p.org, p.reportDays, now));
        reports := Keep(reports, ItemDue(projects, p.org, p.reportDays, now));
      } else {
        forall i: Item ensures !Owned(projects, i, p.org) {
          assert i.project !in projectIds;
        }
        KeepNone(mentions, ItemDue(projects, p.org, p.mentionDays, now));
        KeepNone(reports, ItemDue(projects, p.org, p.reportDays, now));
      }
      return Detail(Some(p.org), auditsDeleted, mentionsDeleted, reportsDeleted);
    }

    method EnforceRetentionCleanup(now: Time) returns (summary: Summary)
      requires UniqueOrgs(policies)
      modifies this`audits, this`mentions, this`reports
      ensures View() == Cleaned(old(View()), projects, policies, defaultDays, now)
      ensures summary == Report(old(View()), projects, policies, defaultDays, now)
    {
      ghost var t := View();
      summary := Summary(0, 0, 0, 0, []);
      NoPolicies(t, projects, now);
      for i := 0 to |policies|
        invariant View() == UnderPolicies(t, projects, policies[..i], now)
        invariant summary == SummaryOf(i, Details(t, projects, policies[..i], now))
      {
        var detail := DeleteFor(policies[i], now);
        Advance(t, projects, policies, i, now);
        summary := Summary(summary.organizations + 1, summary.audits + detail.audits, summary.mentions + detail.mentions,
                           summary.reports + detail.reports, summary.details + [detail]);
      }
      assert policies[..|policies|] == policies;
      DefaultMore(t, policies, defaultDays, now);
      DefaultSummed(t, projects, policies, defaultDays, now);
      var defaultDeleted := DeleteAudits(DefaultDue(Orgs(policies), defaultDays, now));
      if defaultDeleted > 0 {
        summary := summary.(audits := summary.audits + defaultDeleted,
                            details := summary.details + [Detail(None, defaultDeleted, 0, 0)]);
      }
    }

    /** The endpoint for one organisation; `None` is its 404. */
    method ExecuteRetention(org: Org, now: Time) returns (r: Option<Detail>)
      modifies this`audits, this`mentions, this`reports
      ensures PolicyOf(policies, org) == None ==> r == None && View() == old(View())
      ensures PolicyOf(policies, org).Some? ==>
                var p := PolicyOf(policies, org).value;
                r == Some(DetailOf(old(View()), projects, p, now)) && View() == UnderPolicy(old(View()), projects, p, now)
    {
      var policy := PolicyOf(policies, org);
      if policy == None {
        return None;
      }
      var detail := DeleteFor(policy.value, now);
      return Some(detail);
    }
  }

  // ---------------------------------------------------------------------------------------
  // What the clean-up amounts to

  /** A row survives exactly when it is not due; nothing else happens to the tables. */
  lemma CleanupIsExact(t: Tables, projects: map<Project, Org>, policies: seq<Policy>, defaultDays: int, now: Time)
    ensures var c := Cleaned(t, projects, policies, defaultDays, now);
            && (forall r :: r in c.audits <==> r in t.audits && !AuditExpired(policies, defaultDays, now)(r))
            && (forall i :: i in c.mentions <==> i in t.mentions && !ItemExpired(projects, policies, MENTION_DAYS, now)(i))
            && (forall i :: i in c.reports <==> i in t.reports && !ItemExpired(projects, policies, REPORT_DAYS, now)(i))
  {
    KeptRows(t.audits, AuditExpired(policies, defaultDays, now));
    KeptRows(t.mentions, ItemExpired(projects, policies, MENTION_DAYS, now));
    KeptRows(t.reports, ItemExpired(projects, policies, REPORT_DAYS, now));
  }

  /** The totals count exactly the rows that disappeared. */
  lemma TotalsCountDeletedRows(t: Tables, projects: map<Project, Org>, policies: seq<Policy>, defaultDays: int, now: Time)
    requires UniqueOrgs(policies)
    ensures var c, s := Cleaned(t, projects, policies, defaultDays, now), Report(t, projects, policies, defaultDays, now);
            && s.organizations == |policies|
            && s.audits == |t.audits| - |c.audits|
            && s.mentions == |t.mentions| - |c.mentions|
            && s.reports == |t.reports| - |c.reports|
  {
    var byDefault := Doomed(t.audits, DefaultDue(Orgs(policies), defaultDays, now));
    var details := Details(t, projects, policies, now);
    DetailsCount(t, projects, policies, |policies|, now);
    assert policies[..|policies|] == policies;
    DefaultMore(t, policies, defaultDays, now);
    TotalSnoc(details, Detail(None, byDefault, 0, 0));
    if byDefault == 0 { assert details + [] == details; }
  }

  lemma {:induction false} DetailsCount(t: Tables, projects: map<Project, Org>, policies: seq<Policy>, n: nat, now: Time)
    requires UniqueOrgs(policies) && n <= |policies|
    ensures var u, s := UnderPolicies(t, projects, policies[..n], now), SummaryOf(0, Details(t, projects, policies[..n], now));
            && s.audits == |t.audits| - |u.audits|
            && s.mentions == |t.mentions| - |u.mentions|
            && s.reports == |t.reports| - |u.reports|
  {
    if n == 0 {
      assert policies[..0] == [];
      NoPolicies(t, projects, now);
    } else {
      var ps, p := policies[..n - 1], policies[n - 1];
      assert policies[..n] == ps + [p] && policies[..n][..n - 1] == ps;
      DetailsCount(t, projects, policies, n - 1, now);
      OnePolicyMore(t, projects, ps, p, now);
      TotalSnoc(Details(t, projects, ps, now), DetailOf(t, projects, p, now));
    }
  }

  /** A second pass at the same time deletes nothing. */
  lemma SecondPassDeletesNothing(t: Tables, projects: map<Project, Org>, policies: seq<Policy>, defaultDays: int, now: Time)
    requires UniqueOrgs(policies)
    ensures var c := Cleaned(t, projects, policies, defaultDays, now);
            var s := Report(c, projects, policies, defaultDays, now);
            Cleaned(c, projects, policies, defaultDays, now) == c && s.audits == 0 && s.mentions == 0 && s.reports == 0
  {
    var c := Cleaned(t, projects, policies, defaultDays, now);
    CleanupIsExact(t, projects, policies, defaultDays, now);
    KeepNone(c.audits, AuditExpired(policies, defaultDays, now));
    KeepNone(c.mentions, ItemExpired(projects, policies, MENTION_DAYS, now));
    KeepNone(c.reports, ItemExpired(projects, policies, REPORT_DAYS, now));
    TotalsCountDeletedRows(c, projects, policies, defaultDays, now);
  }

  /** The order in which the policies are fetched does not matter. */
  lemma OrderOfPoliciesIsIrrelevant(t: Tables, projects: map<Project, Org>, ps: seq<Policy>, qs: seq<Policy>, defaultDays: int, now: Time)
    requires UniqueOrgs(ps) && UniqueOrgs(qs) && multiset(ps) == multiset(qs)
    ensures Cleaned(t, projects, ps, defaultDays, now) == Cleaned(t, projects, qs, defaultDays, now)
  {
    forall org ensures PolicyOf(ps, org) == PolicyOf(qs, org) { SamePolicy(ps, qs, org); }
    KeepSame(t.audits, AuditExpired(ps, defaultDays, now), AuditExpired(qs, defaultDays, now));
    KeepSame(t.mentions, ItemExpired(projects, ps, MENTION_DAYS, now), ItemExpired(projects, qs, MENTION_DAYS, now));
    KeepSame(t.reports, ItemExpired(projects, ps, REPORT_DAYS, now), ItemExpired(projects, qs, REPORT_DAYS, now));
  }

  lemma SamePolicy(ps: seq<Policy>, qs: seq<Policy>, org: Org)
    requires UniqueOrgs(qs) && multiset(ps) == multiset(qs)
    ensures PolicyOf(ps, org) == PolicyOf(qs, org)
  {
    PolicyOfListed(ps, org);
    PolicyOfListed(qs, org);
    assert forall p :: p in ps <==> p in multiset(ps);
    assert forall p :: p in qs <==> p in multiset(qs);
  }

  function OfOrg(t: Tables, projects: map<Project, Org>, org: Org): Tables {
    Tables(Keep(t.audits, (r: AuditLog) => r.org != org),
           Keep(t.mentions, (i: Item) => !Owned(projects, i, org)),
           Keep(t.reports, (i: Item) => !Owned(projects, i, org)))
  }

  /** For an organisation with a policy, the background clean-up leaves the same rows as the
      endpoint. */
  lemma AgreesWithExecute(t: Tables, projects: map<Project, Org>, policies: seq<Policy>, defaultDays: int, now: Time, p: Policy)
    requires UniqueOrgs(policies) && p in policies
    ensures OfOrg(Cleaned(t, projects, policies, defaultDays, now), projects, p.org) == OfOrg(UnderPolicy(t, projects, p, now), projects, p.org)
  {
    PolicyOfListed(policies, p.org);
    var here: AuditLog -> bool := (r: AuditLog) => r.org != p.org || r.createdAt < Cutoff(now, p.auditDays);
    KeepTwice(t.audits, AuditExpired(policies, defaultDays, now), (r: AuditLog) => r.org != p.org, here);
    KeepTwice(t.audits, AuditDue(p, now), (r: AuditLog) => r.org != p.org, here);
    AgreesOnItems(t.mentions, projects, policies, MENTION_DAYS, now, p);
    AgreesOnItems(t.reports, projects, policies, REPORT_DAYS, now, p);
  }

  lemma AgreesOnItems(rows: seq<Item>, projects: map<Project, Org>, policies: seq<Policy>, days: Policy -> int, now: Time, p: Policy)
    requires PolicyOf(policies, p.org) == Some(p)
    ensures Keep(Keep(rows, ItemExpired(projects, policies, days, now)), (i: Item) => !Owned(projects, i, p.org))
         == Keep(Keep(rows, ItemDue(projects, p.org, days(p), now)), (i: Item) => !Owned(projects, i, p.org))
  {
    var here: Item -> bool := (i: Item) => !Owned(projects, i, p.org) || i.at < Cutoff(now, days(p));
    KeepTwice(rows, ItemExpired(projects, policies, days, now), (i: Item) => !Owned(projects, i, p.org), here);
    KeepTwice(rows, ItemDue(projects, p.org, days(p), now), (i: Item) => !Owned(projects, i, p.org), here);
  }

  /** ... and it reports the same numbers for it. */
  lemma {:induction false} DetailAgreesWithExecute(t: Tables, projects: map<Project, Org>, policies: seq<Policy>, now: Time, i: nat)
    requires i < |policies|
    ensures |Details(t, projects, policies, now)| == |policies|
    ensures Details(t, projects, policies, now)[i] == DetailOf(t, projects, policies[i], now)
  {
    var n := |policies| - 1;
    if n > 0 { DetailAgreesWithExecute(t, projects, policies[..n], now, if i < n then i else 0); }
  }

  // ---------------------------------------------------------------------------------------
  // In days of 86400 seconds

  /** An audit log stays exactly while it is at most as old as its organisation's retention days,
      or the default days when the organisation has no policy. */
  lemma AuditsStayFor(t: Tables, projects: map<Project, Org>, policies: seq<Policy>, defaultDays: int, now: Time, r: AuditLog)
    requires UniqueOrgs(policies) && r in t.audits
    ensures var stays := r in Cleaned(t, projects, policies, defaultDays, now).audits;
            && (forall p | p in policies && p.org == r.org :: stays <==> now - r.createdAt <= 86400 * p.auditDays)
            && ((forall p | p in policies :: p.org != r.org) ==> (stays <==> now - r.createdAt <= 86400 * defaultDays))
  {
    KeptRows(t.audits, AuditExpired(policies, defaultDays, now));
    PolicyOfListed(policies, r.org);
  }

  /** A mention or report stays exactly while it is at most as old as the retention days of its
      kind, and for ever without a policy of the organisation that owns its project. */
  lemma ItemsStayFor(t: Tables, projects: map<Project, Org>, policies: seq<Policy>, defaultDays: int, now: Time, i: Item)
    requires UniqueOrgs(policies)
    ensures var c := Cleaned(t, projects, policies, defaultDays, now);
            && (forall p | p in policies && i.project in projects && projects[i.project] == p.org ::
                  && (i in t.mentions ==> (i in c.mentions <==> now - i.at <= 86400 * p.mentionDays))
                  && (i in t.reports ==> (i in c.reports <==> now - i.at <= 86400 * p.reportDays)))
            && ((forall p | p in policies :: i.project !in projects || projects[i.project] != p.org) ==>
                  (i in c.mentions <==> i in t.mentions) && (i in c.reports <==> i in t.reports))
  {
    KeptRows(t.mentions, ItemExpired(projects, policies, MENTION_DAYS, now));
    KeptRows(t.reports, ItemExpired(projects, policies, REPORT_DAYS, now));
    if i.project in projects { PolicyOfListed(policies, projects[i.project]); }
  }
}
