/**
 * The specialists page `src/pages/portal/supervisor/SpecialistsList.jsx`: one row of scores per
 * specialist, the page's mean KPIs over the selected governorate, and the national bar chart.
 *
 * A specialist with audits is scored by the rounded means of the audits' scores. A specialist
 * without audits is given demo scores drawn from one `mulberry32` generator seeded with the
 * hash of a text built from the specialist's counts. The draws are taken in a fixed order, so
 * which draw feeds which score is part of the result.
 */
module SpecialistsList {
  import opened Wrappers
  import opened JsText
  import opened Arith
  import opened Lists
  import opened Sorting
  import opened Prng
  import opened Records
  import PeriodicReport

  datatype SpecialistRow = SpecialistRow(
    id: string,
    name: string,
    governorate: string,
    governorateId: string,
    totalCases: nat,
    completedCases: nat,
    completionRate: int,
    avgDiagnosisTime: int,
    documentScore: int,
    diagnosticScore: int,
    complianceScore: int,
    overallScore: int)

  /** `GOVERNORATES.find((g) => g.id === id)?.name || 'غير محدد'`. */
  function GovernorateName(id: string): string {
    match FindGovernorateName(Governorates, id)
    case Some(name) => if name != "" then name else "غير محدد"
    case None => "غير محدد"
  }

  function CaseInGovernorate(id: string): Case -> bool {
    (c: Case) => c.governorateId == id
  }

  function CaseCompleted(c: Case): bool {
    c.status == StatusCompleted
  }

  function AuditedBy(id: string): Audit -> bool {
    (a: Audit) => a.specialistId == Some(id)
  }

  /** `seedKey`: the specialist's id, governorate and the three counts. */
  function SeedKey(u: User, audits: nat, cases: nat, completed: nat): string {
    u.id + "|g:" + u.governorateId + "|a:" + NatToString(audits) + "|c:" + NatToString(cases) + "|cc:" + NatToString(completed)
  }

  function DocScores(audits: seq<Audit>): (r: seq<int>)
    ensures |r| == |audits| && forall i :: 0 <= i < |audits| ==> r[i] == audits[i].documentCompletenessScore
  {
    seq(|audits|, i requires 0 <= i < |audits| => audits[i].documentCompletenessScore)
  }

  function DiagScores(audits: seq<Audit>): (r: seq<int>)
    ensures |r| == |audits| && forall i :: 0 <= i < |audits| ==> r[i] == audits[i].diagnosticQualityScore
  {
    seq(|audits|, i requires 0 <= i < |audits| => audits[i].diagnosticQualityScore)
  }

  function ComplianceScores(audits: seq<Audit>): (r: seq<int>)
    ensures |r| == |audits| && forall i :: 0 <= i < |audits| ==> r[i] == audits[i].complianceScore
  {
    seq(|audits|, i requires 0 <= i < |audits| => audits[i].complianceScore)
  }

  /** `Math.round(sum / n)` of a non-empty list of scores. */
  function Mean(values: seq<int>): int
    requires values != []
  {
    RoundDiv(Sum(values), |values|)
  }

  /** A demo score: `clamp(base + jitter(range), 0, 100)` over draw `k` of the generator seeded with `seed`. */
  function DemoScore(seed: bv32, k: nat, base: int, range: nat): int {
    PeriodicReport.Clamp(base + Jitter(Draw(seed, k), range), 0, 100)
  }

  /** The demo document score: `clamp(86 + jitter(18))` over the first draw. */
  function DemoDocScore(seed: bv32): (r: int)
    ensures 77 <= r <= 95
  {
    JitterBounds(Draw(seed, 0), 18);
    DemoScore(seed, 0, 86, 18)
  }

  /** The demo diagnostic score: `clamp(84 + jitter(18))` over the second draw. */
  function DemoDiagScore(seed: bv32): (r: int)
    ensures 75 <= r <= 93
  {
    JitterBounds(Draw(seed, 1), 18);
    DemoScore(seed, 1, 84, 18)
  }

  /** The demo compliance score: `clamp(88 + jitter(12))` over the third draw. */
  function DemoComplianceScore(seed: bv32): (r: int)
    ensures 82 <= r <= 94
  {
    JitterBounds(Draw(seed, 2), 12);
    DemoScore(seed, 2, 88, 12)
  }

  /** `clamp(22 + jitter(12), 8, 60)` over draw `n`: the jitter keeps it in [16, 28], inside the clamp. */
  function DiagnosisTime(n: bv32): (r: int)
    ensures 16 <= r <= 28
  {
    JitterBounds(n, 12);
    PeriodicReport.Clamp(22 + Jitter(n, 12), 8, 60)
  }

  /** The three scores of a row. */
  datatype Scores = Scores(doc: int, diag: int, compliance: int)

  /** With audits, the rounded means of the audits' scores; without, the demo scores of draws 0, 1 and 2. */
  function RowScores(audits: seq<Audit>, seed: bv32): Scores {
    if audits != [] then Scores(Mean(DocScores(audits)), Mean(DiagScores(audits)), Mean(ComplianceScores(audits)))
    else Scores(DemoDocScore(seed), DemoDiagScore(seed), DemoComplianceScore(seed))
  }

  /** The draw of the diagnosis time: the first with audits (no score drew before it), else the fourth. */
  function TimeDrawIndex(audits: seq<Audit>): nat {
    if audits != [] then 0 else 3
  }

  function SpecialistCases(u: User, allCases: seq<Case>): seq<Case> {
    Filter(allCases, CaseInGovernorate(u.governorateId))
  }

  function SpecialistAudits(u: User, allAudits: seq<Audit>): seq<Audit> {
    Filter(allAudits, AuditedBy(u.id))
  }

  /** The generator seed of a specialist: the hash of the seed text. */
  function RowSeed(u: User, allCases: seq<Case>, allAudits: seq<Audit>): bv32 {
    var cases := SpecialistCases(u, allCases);
    Fnv1a(Utf16(SeedKey(u, |SpecialistAudits(u, allAudits)|, |cases|, |Filter(cases, CaseCompleted)|)))
  }

  /** A row from the specialist's cases, completed count, scores and the draw of the diagnosis time. */
  function RowOf(u: User, cases: seq<Case>, completed: nat, sc: Scores, timeDraw: bv32): SpecialistRow {
    SpecialistRow(
      u.id, u.name, GovernorateName(u.governorateId), u.governorateId,
      |cases|, completed,
      if |cases| > 0 then RoundDiv(100 * completed, |cases|) else 0,
      DiagnosisTime(timeDraw),
      sc.doc, sc.diag, sc.compliance,
      RoundDiv(sc.doc + sc.diag + sc.compliance, 3))
  }

  /** The row of one specialist. */
  function Row(u: User, allCases: seq<Case>, allAudits: seq<Audit>): SpecialistRow {
    var cases := SpecialistCases(u, allCases);
    var audits := SpecialistAudits(u, allAudits);
    var seed := RowSeed(u, allCases, allAudits);
    RowOf(u, cases, |Filter(cases, CaseCompleted)|, RowScores(audits, seed), Draw(seed, TimeDrawIndex(audits)))
  }

  /** The three demo draws, taken from a fresh generator in the page's order. */
  method DrawDemoScores(rand: Mulberry32) returns (sc: Scores)
    requires rand.Valid() && rand.drawn == 0
    modifies rand
    ensures rand.Valid() && rand.seed == old(rand.seed) && rand.drawn == 3
    ensures sc == Scores(DemoDocScore(rand.seed), DemoDiagScore(rand.seed), DemoComplianceScore(rand.seed))
  {
    ghost var seed := rand.seed;
    var doc := DrawScore(rand, 86, 18);
    assert doc == DemoScore(seed, 0, 86, 18);
    var diag := DrawScore(rand, 84, 18);
    assert diag == DemoScore(seed, 1, 84, 18);
    var comp := DrawScore(rand, 88, 12);
    assert comp == DemoScore(seed, 2, 88, 12);
    sc := Scores(doc, diag, comp);
  }

  /** One demo draw: `clamp(base + jitter(range), 0, 100)` from the generator's next value. */
  method DrawScore(rand: Mulberry32, base: int, range: nat) returns (score: int)
    requires rand.Valid()
    modifies rand
    ensures rand.Valid() && rand.seed == old(rand.seed) && rand.drawn == old(rand.drawn) + 1
    ensures score == DemoScore(rand.seed, old(rand.drawn), base, range)
  {
    var n := rand.Next();
    score := PeriodicReport.Clamp(base + Jitter(n, range), 0, 100);
  }

  /**
   * The derivation of one row as the page runs it: hash the seed text, create the generator,
   * and draw from it as each value is computed.
   */
  method DeriveSpecialist(u: User, allCases: seq<Case>, allAudits: seq<Audit>) returns (row: SpecialistRow)
    ensures row == Row(u, allCases, allAudits)
  {
    var cases := SpecialistCases(u, allCases);
    var completed := Filter(cases, CaseCompleted);
    var audits := SpecialistAudits(u, allAudits);
    var h := HashString(SeedKey(u, |audits|, |cases|, |completed|));
    assert h == RowSeed(u, allCases, allAudits);
    var rand := new Mulberry32(h);
    var sc;
    if audits != [] {
      sc := Scores(Mean(DocScores(audits)), Mean(DiagScores(audits)), Mean(ComplianceScores(audits)));
    } else {
      sc := DrawDemoScores(rand);
    }
    assert sc == RowScores(audits, h);
    assert rand.seed == h && rand.drawn == TimeDrawIndex(audits);
    var nt := rand.Next();
    row := RowOf(u, cases, |completed|, sc, nt);
  }

  function IsSpecialistUser(u: User): bool {
    u.role == RoleSpecialist
  }

  /** `specialists`: one row per user whose role is specialist, in user order. */
  function Specialists(allUsers: seq<User>, allCases: seq<Case>, allAudits: seq<Audit>): (rows: seq<SpecialistRow>)
    ensures |rows| == Count(allUsers, IsSpecialistUser)
  {
    var us := Filter(allUsers, IsSpecialistUser);
    seq(|us|, i requires 0 <= i < |us| => Row(us[i], allCases, allAudits))
  }

  /**
   * The bounds of a row: the completion rate is a percentage (0 without cases), the diagnosis
   * time lies in [16, 28] (within the clamp [8, 60]), and the overall score lies between the
   * least and the greatest of the three scores.
   */
  lemma RowBounds(u: User, allCases: seq<Case>, allAudits: seq<Audit>)
    ensures var r := Row(u, allCases, allAudits);
      0 <= r.completionRate <= 100
      && r.completedCases <= r.totalCases
      && (r.totalCases == 0 ==> r.completionRate == 0)
      && 16 <= r.avgDiagnosisTime <= 28
      && PeriodicReport.Min(r.documentScore, PeriodicReport.Min(r.diagnosticScore, r.complianceScore)) <= r.overallScore
      && r.overallScore <= PeriodicReport.Max(r.documentScore, PeriodicReport.Max(r.diagnosticScore, r.complianceScore))
  {
    var cases := SpecialistCases(u, allCases);
    var audits := SpecialistAudits(u, allAudits);
    var seed := RowSeed(u, allCases, allAudits);
    RowOfBounds(u, cases, |Filter(cases, CaseCompleted)|, RowScores(audits, seed), Draw(seed, TimeDrawIndex(audits)));
  }

  /** The bounds of a row, whatever its scores and its time draw. */
  lemma RowOfBounds(u: User, cases: seq<Case>, completed: nat, sc: Scores, timeDraw: bv32)
    requires completed <= |cases|
    ensures var r := RowOf(u, cases, completed, sc, timeDraw);
      0 <= r.completionRate <= 100
      && r.completedCases <= r.totalCases
      && (r.totalCases == 0 ==> r.completionRate == 0)
      && 16 <= r.avgDiagnosisTime <= 28
      && PeriodicReport.Min(r.documentScore, PeriodicReport.Min(r.diagnosticScore, r.complianceScore)) <= r.overallScore
      && r.overallScore <= PeriodicReport.Max(r.documentScore, PeriodicReport.Max(r.diagnosticScore, r.complianceScore))
  {
    if |cases| > 0 {
      PercentBounds(completed, |cases|);
    }
    var lo := PeriodicReport.Min(sc.doc, PeriodicReport.Min(sc.diag, sc.compliance));
    var hi := PeriodicReport.Max(sc.doc, PeriodicReport.Max(sc.diag, sc.compliance));
    RoundDivBounds(sc.doc + sc.diag + sc.compliance, 3, lo, hi);
  }

  lemma PercentBounds(v: nat, d: nat)
    requires 0 < d && v <= d
    ensures 0 <= RoundDiv(100 * v, d) <= 100
  {
    RoundDivBounds(100 * v, d, 0, 100);
  }

  /**
   * A specialist with audits gets, as each score, the rounded mean of that score over exactly the
   * audits carrying the specialist's id; with audit scores in [0, 100], each mean lies in [0, 100].
   */
  lemma AuditedScoreBounds(u: User, allCases: seq<Case>, allAudits: seq<Audit>)
    requires forall i :: 0 <= i < |allAudits| ==>
      0 <= allAudits[i].documentCompletenessScore <= 100
      && 0 <= allAudits[i].diagnosticQualityScore <= 100
      && 0 <= allAudits[i].complianceScore <= 100
    ensures var r := Row(u, allCases, allAudits);
      0 <= r.documentScore <= 100 && 0 <= r.diagnosticScore <= 100 && 0 <= r.complianceScore <= 100
    ensures var r := Row(u, allCases, allAudits);
      var audits := Filter(allAudits, AuditedBy(u.id));
      audits != [] ==>
        && r.documentScore == RoundDiv(Sum(DocScores(audits)), |audits|)
        && r.diagnosticScore == RoundDiv(Sum(DiagScores(audits)), |audits|)
        && r.complianceScore == RoundDiv(Sum(ComplianceScores(audits)), |audits|)
  {
    var audits := SpecialistAudits(u, allAudits);
    if audits != [] {
      forall i | 0 <= i < |audits|
        ensures 0 <= audits[i].documentCompletenessScore <= 100
        ensures 0 <= audits[i].diagnosticQualityScore <= 100
        ensures 0 <= audits[i].complianceScore <= 100
      {
        assert audits[i] in allAudits;
      }
      SumBounds(DocScores(audits), 0, 100);
      RoundDivBounds(Sum(DocScores(audits)), |audits|, 0, 100);
      SumBounds(DiagScores(audits), 0, 100);
      RoundDivBounds(Sum(DiagScores(audits)), |audits|, 0, 100);
      SumBounds(ComplianceScores(audits), 0, 100);
      RoundDivBounds(Sum(ComplianceScores(audits)), |audits|, 0, 100);
    }
  }

  /** `filteredSpecialists`: every row when no governorate is selected, else the rows of that governorate. */
  function FilteredSpecialists(rows: seq<SpecialistRow>, governorateId: string): seq<SpecialistRow> {
    if governorateId == "" then rows else Filter(rows, (r: SpecialistRow) => r.governorateId == governorateId)
  }

  /** Which KPI a mean is taken over. */
  datatype Kpi = ToolAccuracy | DocCompletion | Compliance | Speed

  function KpiValue(r: SpecialistRow, k: Kpi): int {
    match k
    case ToolAccuracy => r.diagnosticScore
    case DocCompletion => r.documentScore
    case Compliance => r.complianceScore
    case Speed => r.avgDiagnosisTime
  }

  function KpiValues(rows: seq<SpecialistRow>, k: Kpi): (r: seq<int>)
    ensures |r| == |rows| && forall i :: 0 <= i < |rows| ==> r[i] == KpiValue(rows[i], k)
  {
    seq(|rows|, i requires 0 <= i < |rows| => KpiValue(rows[i], k))
  }

  /** The page's KPI means: the rounded sum over `max(1, rows)`. */
  function KpiMean(rows: seq<SpecialistRow>, k: Kpi): int {
    RoundDiv(Sum(KpiValues(rows, k)), PeriodicReport.Max(1, |rows|))
  }

  /** An empty selection gives 0; otherwise the mean lies within the bounds of the values. */
  lemma KpiMeanBounds(rows: seq<SpecialistRow>, k: Kpi, lo: int, hi: int)
    requires forall i :: 0 <= i < |rows| ==> lo <= KpiValue(rows[i], k) <= hi
    ensures rows == [] ==> KpiMean(rows, k) == 0
    ensures rows != [] ==> lo <= KpiMean(rows, k) <= hi
  {
    if rows != [] {
      SumBounds(KpiValues(rows, k), lo, hi);
      RoundDivBounds(Sum(KpiValues(rows, k)), |rows|, lo, hi);
    }
  }

  /** `barData` entry: governorate name and overall score. */
  datatype Bar = Bar(name: string, value: int)

  function HighestScoreFirst(r: SpecialistRow): seq<int> {
    [-r.overallScore]
  }

  function SortedByScore(rows: seq<SpecialistRow>): seq<SpecialistRow> {
    SortByKey(rows, HighestScoreFirst)
  }

  /** `barData`: every specialist, highest overall score first, ties in list order. */
  function BarData(rows: seq<SpecialistRow>): (bars: seq<Bar>)
    ensures |bars| == |rows|
  {
    var sorted := SortedByScore(rows);
    seq(|sorted|, i requires 0 <= i < |sorted| => Bar(sorted[i].governorate, sorted[i].overallScore))
  }

  /**
   * The bars show every specialist once (the same multiset of rows, whatever governorate the
   * page selects), in non-increasing score order, and rows of equal score keep their order.
   */
  lemma BarDataCorrect(rows: seq<SpecialistRow>)
    ensures multiset(SortedByScore(rows)) == multiset(rows)
    ensures forall i :: 0 <= i < |rows| ==>
      BarData(rows)[i] == Bar(SortedByScore(rows)[i].governorate, SortedByScore(rows)[i].overallScore)
    ensures forall i, j :: 0 <= i < j < |rows| ==> BarData(rows)[i].value >= BarData(rows)[j].value
    ensures forall k :: WithKey(SortedByScore(rows), HighestScoreFirst, k) == WithKey(rows, HighestScoreFirst, k)
  {
    var sorted := SortedByScore(rows);
    SortByKeyCorrect(rows, HighestScoreFirst);
    forall i, j | 0 <= i < j < |rows| ensures sorted[i].overallScore >= sorted[j].overallScore {
      assert !LexLess(HighestScoreFirst(sorted[j]), HighestScoreFirst(sorted[i]));
      LexLessSingle(-sorted[j].overallScore, -sorted[i].overallScore);
    }
  }
}
