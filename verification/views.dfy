/**
 * The read-only aggregation views: the dashboard counters and the
 * report → severity → vulnerability → instance tree.
 *
 * The tree groups a report's vulnerabilities by their stored severity in the
 * order they are met, then emits the groups in the fixed order High, Medium,
 * Low, Informational; a group under any other severity name is built but never
 * emitted. Instance labels are URLs cut to 80 characters plus an ellipsis.
 */
module Views {
  import opened Base
  import opened Json
  import opened Models
  import opened StatusEngine

  // ---------------------------------------------------------------------------
  // Dashboard

  datatype Dashboard = Dashboard(
    totalReports: nat,
    totalVulnerabilities: nat,
    totalInstances: nat,
    severityStats: map<string, nat>,
    statusStats: map<string, nat>)

  /** `for level in SeverityLevel: severity_stats[level.value] = count(severity == level.value)`. */
  function SeverityStats(vs: seq<Vulnerability>, levels: seq<Severity>, acc: map<string, nat>): (r: map<string, nat>)
    ensures r.Keys == acc.Keys + set i | 0 <= i < |levels| :: levels[i].Name()
    ensures forall i | 0 <= i < |levels| :: levels[i].Name() in r
    decreases |levels|
  {
    if |levels| == 0 then acc
    else SeverityStats(vs, levels[1..], acc[levels[0].Name() := CountSeverity(vs, levels[0].Name())])
  }

  /** The dashboard counters; the recent-reports list is not part of this model. */
  function DashboardStats(db: Db): (r: Dashboard)
    ensures r.totalReports == |db.reports|
    ensures r.totalVulnerabilities == |db.vulnerabilities|
    ensures r.totalInstances == |db.instances|
    ensures forall s: Severity :: s.Name() in r.severityStats
  {
    SeverityEnumeration();
    Dashboard(|db.reports|, |db.vulnerabilities|, |db.instances|,
              SeverityStats(db.vulnerabilities, SeverityLevels, map[]),
              StatusSummary(db, None))
  }

  /** Each listed level gets its exact count; later levels overwrite earlier ones. */
  lemma {:induction false} SeverityStatsGet(vs: seq<Vulnerability>, levels: seq<Severity>, acc: map<string, nat>, s: Severity)
    requires s in levels || s.Name() in acc
    ensures SeverityStats(vs, levels, acc)[s.Name()] ==
              if s in levels then CountSeverity(vs, s.Name()) else acc[s.Name()]
    decreases |levels|
  {
    SeverityEnumeration();
    if |levels| > 0 {
      assert s in levels <==> s == levels[0] || s in levels[1..];
      SeverityStatsGet(vs, levels[1..], acc[levels[0].Name() := CountSeverity(vs, levels[0].Name())], s);
    }
  }

  /**
   * The dashboard's severity counters hold all four levels, each the number of
   * vulnerabilities (not instances) stored under exactly that name, zero when
   * there are none.
   */
  lemma {:induction false} DashboardSeverities(db: Db)
    ensures var r := DashboardStats(db).severityStats;
            && r.Keys == (set s: Severity :: s.Name())
            && (forall s: Severity :: r[s.Name()] == CountSeverity(db.vulnerabilities, s.Name()))
  {
    var vs := db.vulnerabilities;
    LevelNames();
    forall s: Severity
      ensures DashboardStats(db).severityStats[s.Name()] == CountSeverity(vs, s.Name())
    {
      SeverityStatsGet(vs, SeverityLevels, map[], s);
    }
  }

  /** The level list names every level and nothing else. */
  lemma LevelNames()
    ensures forall s: Severity :: s in SeverityLevels
    ensures (set i | 0 <= i < |SeverityLevels| :: SeverityLevels[i].Name()) == (set s: Severity :: s.Name())
  {
    SeverityEnumeration();
    forall s: Severity ensures s in SeverityLevels {
      assert SeverityLevels[s.Rank()] == s;
    }
    assert SeverityLevels[0].Name() == "High";
    assert SeverityLevels[1].Name() == "Medium";
    assert SeverityLevels[2].Name() == "Low";
    assert SeverityLevels[3].Name() == "Informational";
  }

  /** When every stored severity is one of the four, the counters add up to the vulnerability total. */
  lemma {:induction false} DashboardSeveritiesTotal(db: Db)
    requires KnownSeverities(db)
    ensures var r := DashboardStats(db).severityStats;
            r[High.Name()] + r[Medium.Name()] + r[Low.Name()] + r[Informational.Name()] == DashboardStats(db).totalVulnerabilities
  {
    DashboardSeverities(db);
    FourBucketsSum(DashboardStats(db).severityStats, db.vulnerabilities);
  }

  lemma FourBucketsSum(r: map<string, nat>, vs: seq<Vulnerability>)
    requires forall s: Severity :: s.Name() in r && r[s.Name()] == CountSeverity(vs, s.Name())
    requires forall v | v in vs :: ParseSeverity(v.severity).Some?
    ensures r[High.Name()] + r[Medium.Name()] + r[Low.Name()] + r[Informational.Name()] == |vs|
  {
    SeverityCountsBounded(vs);
  }

  /** The sum over `rs` of each report's `stats` bucket for `s`. */
  function SumOfStats(rs: seq<Report>, vs: seq<Vulnerability>, s: Severity): nat
    decreases |rs|
  {
    if |rs| == 0 then 0 else Stats(VulnerabilitiesOf(vs, rs[0].id))[s.Name()] + SumOfStats(rs[1..], vs, s)
  }

  /** How many of `rs` carry identifier `id`. */
  function Occurrences(rs: seq<Report>, id: nat): nat
    decreases |rs|
  {
    if |rs| == 0 then 0 else (if rs[0].id == id then 1 else 0) + Occurrences(rs[1..], id)
  }

  lemma {:induction false} OccurrencesNone(rs: seq<Report>, id: nat)
    requires forall r | r in rs :: r.id != id
    ensures Occurrences(rs, id) == 0
    decreases |rs|
  {
    if |rs| > 0 {
      assert rs[0] in rs;
      assert forall r | r in rs[1..] :: r in rs;
      OccurrencesNone(rs[1..], id);
    }
  }

  lemma {:induction false} OccurrencesOne(rs: seq<Report>, id: nat)
    requires ReportsSorted(rs)
    requires exists r | r in rs :: r.id == id
    ensures Occurrences(rs, id) == 1
    decreases |rs|
  {
    assert ReportsSorted(rs[1..]);
    if rs[0].id == id {
      forall r | r in rs[1..] ensures r.id != id {
        var j :| 0 <= j < |rs[1..]| && rs[1..][j] == r;
        assert rs[j + 1] == r;
      }
      OccurrencesNone(rs[1..], id);
    } else {
      var r :| r in rs && r.id == id;
      assert r in rs[1..];
      OccurrencesOne(rs[1..], id);
    }
  }

  lemma {:induction false} SumOfStatsEmpty(rs: seq<Report>, s: Severity)
    ensures SumOfStats(rs, [], s) == 0
    decreases |rs|
  {
    if |rs| > 0 {
      SumOfStatsEmpty(rs[1..], s);
    }
  }

  /** One more vulnerability adds one to its report's bucket. */
  lemma CountCons(v: Vulnerability, rest: seq<Vulnerability>, id: nat, name: string)
    ensures CountSeverity(VulnerabilitiesOf([v] + rest, id), name) ==
              (if v.reportId == id && v.severity == name then 1 else 0) + CountSeverity(VulnerabilitiesOf(rest, id), name)
  {
    assert ([v] + rest)[0] == v && ([v] + rest)[1..] == rest;
    if v.reportId == id {
      var tail := VulnerabilitiesOf(rest, id);
      assert ([v] + tail)[0] == v && ([v] + tail)[1..] == tail;
    }
  }

  lemma {:induction false} SumOfStatsCons(rs: seq<Report>, v: Vulnerability, rest: seq<Vulnerability>, s: Severity)
    ensures SumOfStats(rs, [v] + rest, s) ==
              SumOfStats(rs, rest, s) + (if v.severity == s.Name() then Occurrences(rs, v.reportId) else 0)
    decreases |rs|
  {
    if |rs| > 0 {
      CountCons(v, rest, rs[0].id, s.Name());
      SumOfStatsCons(rs[1..], v, rest, s);
    }
  }

  /** Summing the per-report buckets over reports with distinct identifiers counts every owned vulnerability once. */
  lemma {:induction false} SumOfStatsPartition(rs: seq<Report>, vs: seq<Vulnerability>, s: Severity)
    requires ReportsSorted(rs)
    requires forall v | v in vs :: exists r | r in rs :: r.id == v.reportId
    ensures SumOfStats(rs, vs, s) == CountSeverity(vs, s.Name())
    decreases |vs|
  {
    if |vs| == 0 {
      SumOfStatsEmpty(rs, s);
    } else {
      assert vs == [vs[0]] + vs[1..];
      assert forall v | v in vs[1..] :: v in vs;
      SumOfStatsPartition(rs, vs[1..], s);
      SumOfStatsCons(rs, vs[0], vs[1..], s);
      assert vs[0] in vs;
      OccurrencesOne(rs, vs[0].reportId);
    }
  }

  /**
   * In a valid store, each dashboard severity counter is the sum of that
   * bucket of `Report.stats` over all reports.
   */
  lemma DashboardIsSumOfReportStats(db: Db)
    requires Valid(db)
    ensures forall s: Severity :: DashboardStats(db).severityStats[s.Name()] == SumOfStats(db.reports, db.vulnerabilities, s)
  {
    DashboardSeverities(db);
    forall s: Severity
      ensures SumOfStats(db.reports, db.vulnerabilities, s) == CountSeverity(db.vulnerabilities, s.Name())
    {
      forall v | v in db.vulnerabilities ensures exists r | r in db.reports :: r.id == v.reportId {
        assert v.reportId in ReportIds(db);
      }
      SumOfStatsPartition(db.reports, db.vulnerabilities, s);
    }
  }

  // ---------------------------------------------------------------------------
  // Tree

  datatype InstanceNode = InstanceNode(id: nat, name: Json, status: string)
  datatype VulnNode = VulnNode(id: nat, title: string, instanceCount: nat, children: seq<InstanceNode>)
  datatype SeverityNode = SeverityNode(reportId: nat, severity: string, children: seq<VulnNode>)
  datatype ReportNode = ReportNode(id: nat, name: Json, children: seq<SeverityNode>)

  /** The longest instance label kept whole. */
  const LabelWidth: nat := 80

  /** `url[:80] + '...' if len(url) > 80 else url`. */
  function Truncate(url: string): (r: string)
    ensures |r| <= LabelWidth + 3
    ensures |url| <= LabelWidth ==> r == url
    ensures |url| > LabelWidth ==> |r| == LabelWidth + 3 && r[..LabelWidth] == url[..LabelWidth] && EndsWith(r, "...")
  {
    if |url| > LabelWidth then url[..LabelWidth] + "..." else url
  }

  /** The label of an instance node: its URL text, truncated. */
  function InstanceLabel(url: Json): Json {
    match url
    case JStr(s) => JStr(Truncate(s))
    case _ => url
  }

  function InstanceNodes(xs: seq<Instance>): (r: seq<InstanceNode>)
    ensures |r| == |xs|
    ensures forall i | 0 <= i < |xs| :: r[i].id == xs[i].id && r[i].status == xs[i].fixStatus
  {
    seq(|xs|, i requires 0 <= i < |xs| => InstanceNode(xs[i].id, InstanceLabel(xs[i].url), xs[i].fixStatus))
  }

  /** The node of one vulnerability: its title, its instance count and one child per instance. */
  function VulnNodeOf(v: Vulnerability, xs: seq<Instance>): (r: VulnNode)
    ensures r.id == v.id && r.title == v.title
    ensures r.instanceCount == |r.children| == |InstancesOf(xs, v.id)|
  {
    var own := InstancesOf(xs, v.id);
    VulnNode(v.id, v.title, |own|, InstanceNodes(own))
  }

  /** `severity_groups.get(k, [])`: the nodes grouped under `k` so far. */
  function GroupOf(groups: map<string, seq<VulnNode>>, k: string): seq<VulnNode> {
    if k in groups then groups[k] else []
  }

  /** One turn of the grouping loop: `v`'s node is appended to the group of its stored severity. */
  function AddNode(groups: map<string, seq<VulnNode>>, v: Vulnerability, xs: seq<Instance>): map<string, seq<VulnNode>> {
    groups[v.severity := GroupOf(groups, v.severity) + [VulnNodeOf(v, xs)]]
  }

  /** The grouping loop over a report's vulnerabilities. */
  function Groups(vs: seq<Vulnerability>, xs: seq<Instance>, acc: map<string, seq<VulnNode>>): map<string, seq<VulnNode>>
    decreases |vs|
  {
    if |vs| == 0 then acc else Groups(vs[1..], xs, AddNode(acc, vs[0], xs))
  }

  /** The nodes of the vulnerabilities stored under `name`, in order. */
  function NodesWith(vs: seq<Vulnerability>, name: string, xs: seq<Instance>): (r: seq<VulnNode>)
    ensures |r| == 0 <==> forall v | v in vs :: v.severity != name
  {
    if |vs| == 0 then []
    else (if vs[0].severity == name then [VulnNodeOf(vs[0], xs)] else []) + NodesWith(vs[1..], name, xs)
  }

  lemma AddNodeGet(groups: map<string, seq<VulnNode>>, v: Vulnerability, xs: seq<Instance>, k: string)
    ensures k in AddNode(groups, v, xs) <==> k in groups || v.severity == k
    ensures GroupOf(AddNode(groups, v, xs), k) ==
              GroupOf(groups, k) + (if v.severity == k then [VulnNodeOf(v, xs)] else [])
  {
  }

  lemma Associate<T>(a: seq<T>, b: seq<T>, c: seq<T>)
    ensures (a + b) + c == a + (b + c)
  {
  }

  /**
   * After the loop, a key has a group exactly when it had one or some
   * vulnerability carries it, and the group holds what it held followed by the
   * nodes of that severity in order.
   */
  lemma {:induction false} GroupsGet(vs: seq<Vulnerability>, xs: seq<Instance>, acc: map<string, seq<VulnNode>>, k: string)
    ensures k in Groups(vs, xs, acc) <==> k in acc || |NodesWith(vs, k, xs)| > 0
    ensures GroupOf(Groups(vs, xs, acc), k) == GroupOf(acc, k) + NodesWith(vs, k, xs)
    decreases |vs|
  {
    if |vs| > 0 {
      var acc' := AddNode(acc, vs[0], xs);
      var here: seq<VulnNode> := if vs[0].severity == k then [VulnNodeOf(vs[0], xs)] else [];
      GroupsGet(vs[1..], xs, acc', k);
      AddNodeGet(acc, vs[0], xs, k);
      Associate(GroupOf(acc, k), here, NodesWith(vs[1..], k, xs));
      assert NodesWith(vs, k, xs) == here + NodesWith(vs[1..], k, xs);
    } else {
      assert GroupOf(acc, k) + [] == GroupOf(acc, k);
    }
  }

  /** `for sev in severity_order: if sev in severity_groups: children.append(...)`. */
  function Emit(rid: nat, order: seq<Severity>, groups: map<string, seq<VulnNode>>): (r: seq<SeverityNode>)
    ensures |r| <= |order|
    decreases |order|
  {
    if |order| == 0 then []
    else
      var k := order[0].Name();
      (if k in groups then [SeverityNode(rid, k, groups[k])] else []) + Emit(rid, order[1..], groups)
  }

  /** `report.site_url or report.file_name`. */
  function ReportName(rep: Report): (r: Json)
    ensures Truthy(rep.siteUrl) ==> r == rep.siteUrl
    ensures !Truthy(rep.siteUrl) && rep.fileName.Some? ==> r == JStr(rep.fileName.value)
    ensures !Truthy(rep.siteUrl) && rep.fileName.None? ==> r == JNull
  {
    if Truthy(rep.siteUrl) then rep.siteUrl
    else match rep.fileName
      case Some(f) => JStr(f)
      case None => JNull
  }

  /** The tree node of one report. */
  function ReportTree(db: Db, rep: Report): ReportNode {
    var groups := Groups(VulnerabilitiesOf(db.vulnerabilities, rep.id), db.instances, map[]);
    ReportNode(rep.id, ReportName(rep), Emit(rep.id, SeverityLevels, groups))
  }

  /** The group of severity `s`, if any vulnerability carries it. */
  function GroupNode(rid: nat, s: Severity, vs: seq<Vulnerability>, xs: seq<Instance>): seq<SeverityNode> {
    var ns := NodesWith(vs, s.Name(), xs);
    if |ns| > 0 then [SeverityNode(rid, s.Name(), ns)] else []
  }

  /** The reference grouping: one node per severity in `order` that some vulnerability carries. */
  function ExpectedGroups(rid: nat, order: seq<Severity>, vs: seq<Vulnerability>, xs: seq<Instance>): seq<SeverityNode>
    decreases |order|
  {
    if |order| == 0 then [] else GroupNode(rid, order[0], vs, xs) + ExpectedGroups(rid, order[1..], vs, xs)
  }

  lemma {:induction false} EmitGroups(rid: nat, order: seq<Severity>, vs: seq<Vulnerability>, xs: seq<Instance>)
    ensures Emit(rid, order, Groups(vs, xs, map[])) == ExpectedGroups(rid, order, vs, xs)
    decreases |order|
  {
    if |order| > 0 {
      var k := order[0].Name();
      GroupsGet(vs, xs, map[], k);
      assert GroupOf(map[], k) + NodesWith(vs, k, xs) == NodesWith(vs, k, xs);
      EmitGroups(rid, order[1..], vs, xs);
    }
  }

  /**
   * The children of a report node are, for each of High, Medium, Low and
   * Informational in that order, one group holding the nodes of the report's
   * vulnerabilities of that severity in report order; a severity no
   * vulnerability carries gets no group.
   */
  lemma ReportTreeGroups(db: Db, rep: Report)
    ensures ReportTree(db, rep).children ==
              ExpectedGroups(rep.id, SeverityLevels, VulnerabilitiesOf(db.vulnerabilities, rep.id), db.instances)
  {
    EmitGroups(rep.id, SeverityLevels, VulnerabilitiesOf(db.vulnerabilities, rep.id), db.instances);
  }

  /** Ranks increase along `order`. */
  predicate RankedOrder(order: seq<Severity>) {
    forall i, j | 0 <= i < j < |order| :: order[i].Rank() < order[j].Rank()
  }

  lemma SeverityLevelsRanked()
    ensures RankedOrder(SeverityLevels)
  {
  }

  /** The display rank of a stored severity name; names outside the four rank last. */
  function NameRank(name: string): nat {
    match ParseSeverity(name)
    case Some(s) => s.Rank()
    case None => 4
  }

  lemma NameRankOf(s: Severity)
    ensures NameRank(s.Name()) == s.Rank()
    ensures ParseSeverity(s.Name()) == Some(s)
  {
    SeverityEnumeration();
  }

  /** Every group is the non-empty group of some severity of `order`. */
  lemma {:induction false} ExpectedMember(rid: nat, order: seq<Severity>, vs: seq<Vulnerability>, xs: seq<Instance>,
                                         g: SeverityNode)
    requires g in ExpectedGroups(rid, order, vs, xs)
    ensures exists s | s in order :: g == SeverityNode(rid, s.Name(), NodesWith(vs, s.Name(), xs))
    ensures |g.children| > 0
    decreases |order|
  {
    if g !in GroupNode(rid, order[0], vs, xs) {
      ExpectedMember(rid, order[1..], vs, xs, g);
      var s :| s in order[1..] && g == SeverityNode(rid, s.Name(), NodesWith(vs, s.Name(), xs));
      assert s in order;
    }
  }

  /** Group names rank strictly increasing along `gs`. */
  predicate RankedGroups(gs: seq<SeverityNode>) {
    forall i, j | 0 <= i < j < |gs| :: NameRank(gs[i].severity) < NameRank(gs[j].severity)
  }

  lemma ConsRanked(g: SeverityNode, rest: seq<SeverityNode>)
    requires RankedGroups(rest)
    requires forall h | h in rest :: NameRank(g.severity) < NameRank(h.severity)
    ensures RankedGroups([g] + rest)
  {
    var gs := [g] + rest;
    forall i, j | 0 <= i < j < |gs| ensures NameRank(gs[i].severity) < NameRank(gs[j].severity) {
      assert gs[j] == rest[j - 1];
      if i > 0 {
        assert gs[i] == rest[i - 1];
      } else {
        assert rest[j - 1] in rest;
      }
    }
  }

  /** Groups appear in the order of `order`, so each severity at most once. */
  lemma {:induction false} ExpectedGroupsShape(rid: nat, order: seq<Severity>, vs: seq<Vulnerability>, xs: seq<Instance>)
    requires RankedOrder(order)
    ensures RankedGroups(ExpectedGroups(rid, order, vs, xs))
    decreases |order|
  {
    if |order| > 0 {
      var head := GroupNode(rid, order[0], vs, xs);
      var rest := ExpectedGroups(rid, order[1..], vs, xs);
      assert RankedOrder(order[1..]);
      ExpectedGroupsShape(rid, order[1..], vs, xs);
      if |head| > 0 {
        forall h | h in rest ensures NameRank(head[0].severity) < NameRank(h.severity) {
          NameRankOf(order[0]);
          HeadBeforeRest(rid, order, vs, xs, h);
        }
        ConsRanked(head[0], rest);
        assert ExpectedGroups(rid, order, vs, xs) == [head[0]] + rest;
      } else {
        assert ExpectedGroups(rid, order, vs, xs) == rest;
      }
    }
  }

  lemma {:induction false} HeadBeforeRest(rid: nat, order: seq<Severity>, vs: seq<Vulnerability>, xs: seq<Instance>,
                                         g: SeverityNode)
    requires RankedOrder(order) && |order| > 0
    requires g in ExpectedGroups(rid, order[1..], vs, xs)
    ensures order[0].Rank() < NameRank(g.severity)
  {
    ExpectedMember(rid, order[1..], vs, xs, g);
    var s :| s in order[1..] && g == SeverityNode(rid, s.Name(), NodesWith(vs, s.Name(), xs));
    var k :| 0 <= k < |order[1..]| && order[1..][k] == s;
    assert order[k + 1] == s;
    NameRankOf(s);
  }

  /**
   * A vulnerability of a severity in `order` sits in the group named after its
   * severity; a vulnerability of any other severity name is in no group's name.
   */
  lemma {:induction false} ExpectedGroupsCover(rid: nat, order: seq<Severity>, vs: seq<Vulnerability>, xs: seq<Instance>,
                                              v: Vulnerability)
    requires v in vs
    ensures var gs := ExpectedGroups(rid, order, vs, xs);
            ParseSeverity(v.severity).Some? && ParseSeverity(v.severity).value in order ==>
              exists g | g in gs :: g.severity == v.severity && VulnNodeOf(v, xs) in g.children
    ensures var gs := ExpectedGroups(rid, order, vs, xs);
            ParseSeverity(v.severity).None? ==> forall g | g in gs :: g.severity != v.severity
  {
    var gs := ExpectedGroups(rid, order, vs, xs);
    if ParseSeverity(v.severity).Some? && ParseSeverity(v.severity).value in order {
      var s := ParseSeverity(v.severity).value;
      NodesWithMember(vs, v, xs);
      ExpectedHas(rid, order, vs, xs, s);
    }
    if ParseSeverity(v.severity).None? {
      forall g | g in gs ensures g.severity != v.severity {
        ExpectedMember(rid, order, vs, xs, g);
        var s :| s in order && g == SeverityNode(rid, s.Name(), NodesWith(vs, s.Name(), xs));
        NameRankOf(s);
      }
    }
  }

  /** The group of a severity in `order` that some vulnerability carries is emitted. */
  lemma {:induction false} ExpectedHas(rid: nat, order: seq<Severity>, vs: seq<Vulnerability>, xs: seq<Instance>, s: Severity)
    requires s in order
    requires |NodesWith(vs, s.Name(), xs)| > 0
    ensures SeverityNode(rid, s.Name(), NodesWith(vs, s.Name(), xs)) in ExpectedGroups(rid, order, vs, xs)
    decreases |order|
  {
    if order[0] != s {
      ExpectedHas(rid, order[1..], vs, xs, s);
    }
  }

  lemma {:induction false} NodesWithMember(vs: seq<Vulnerability>, v: Vulnerability, xs: seq<Instance>)
    requires v in vs
    ensures VulnNodeOf(v, xs) in NodesWith(vs, v.severity, xs)
    decreases |vs|
  {
    if vs[0] != v {
      NodesWithMember(vs[1..], v, xs);
    }
  }

  /**
   * The tree of a report: groups in the order High, Medium, Low, Informational,
   * each severity at most once and never empty; each vulnerability of the
   * report with one of the four severities sits in the group of its severity,
   * and one of any other severity is left out of the tree.
   */
  lemma ReportTreeShape(db: Db, rep: Report)
    ensures var gs := ReportTree(db, rep).children;
            && RankedGroups(gs)
            && (forall g | g in gs :: |g.children| > 0 && ParseSeverity(g.severity).Some?)
            && (forall v | v in db.vulnerabilities && v.reportId == rep.id ::
                  (ParseSeverity(v.severity).Some? ==>
                     exists g | g in gs :: g.severity == v.severity && VulnNodeOf(v, db.instances) in g.children)
                  && (ParseSeverity(v.severity).None? ==> forall g | g in gs :: g.severity != v.severity))
  {
    var vs := VulnerabilitiesOf(db.vulnerabilities, rep.id);
    ReportTreeGroups(db, rep);
    SeverityLevelsRanked();
    ExpectedGroupsShape(rep.id, SeverityLevels, vs, db.instances);
    var gs := ReportTree(db, rep).children;
    forall g | g in gs ensures |g.children| > 0 && ParseSeverity(g.severity).Some? {
      ExpectedMember(rep.id, SeverityLevels, vs, db.instances, g);
      var s :| s in SeverityLevels && g == SeverityNode(rep.id, s.Name(), NodesWith(vs, s.Name(), db.instances));
      NameRankOf(s);
    }
    forall v | v in db.vulnerabilities && v.reportId == rep.id
      ensures ParseSeverity(v.severity).Some? ==>
                exists g | g in gs :: g.severity == v.severity && VulnNodeOf(v, db.instances) in g.children
      ensures ParseSeverity(v.severity).None? ==> forall g | g in gs :: g.severity != v.severity
    {
      SeverityEnumeration();
      assert ParseSeverity(v.severity).Some? ==> ParseSeverity(v.severity).value in SeverityLevels;
      ExpectedGroupsCover(rep.id, SeverityLevels, vs, db.instances, v);
    }
  }

  /**
   * `GET /api/tree`: one node per report, in the order the reports are listed.
   * `listed` is the stored reports in the order the query returns them.
   */
  function VulnTree(db: Db, listed: seq<Report>): (r: seq<ReportNode>)
    requires multiset(listed) == multiset(db.reports)
    ensures |r| == |db.reports|
    ensures forall i | 0 <= i < |listed| :: r[i].id == listed[i].id && r[i].name == ReportName(listed[i])
    ensures forall i | 0 <= i < |listed| :: r[i] == ReportTree(db, listed[i])
    ensures forall rep | rep in db.reports :: exists i | 0 <= i < |r| :: r[i] == ReportTree(db, rep)
  {
    var r := seq(|listed|, i requires 0 <= i < |listed| => ReportTree(db, listed[i]));
    assert |listed| == |multiset(listed)| == |db.reports|;
    forall rep | rep in db.reports
      ensures exists i | 0 <= i < |r| :: r[i] == ReportTree(db, rep)
    {
      assert rep in multiset(db.reports);
      assert rep in listed;
      var i :| 0 <= i < |listed| && listed[i] == rep;
      assert r[i] == ReportTree(db, rep);
    }
    r
  }

  /** `GET /api/tree/<id>`: a one-node tree, or not found. */
  function VulnTreeByReport(db: Db, rid: nat): (r: Result<seq<ReportNode>, NotFound>)
    ensures r.Err? <==> rid !in ReportIds(db)
    ensures r.Ok? ==> |r.value| == 1 && r.value[0].id == rid
    ensures r.Ok? ==> FindReport(db.reports, rid).Some? && r.value == [ReportTree(db, FindReport(db.reports, rid).value)]
  {
    match FindReport(db.reports, rid)
    case None => Err(NotFound)
    case Some(rep) => Ok([ReportTree(db, rep)])
  }
}
