/**
 * The key figures of the supervisor dashboard (`src/pages/portal/supervisor/Dashboard.jsx`) that
 * the periodic report does not share: the specialists count, the mean report delay, the audited
 * cases, the share of audits without major notes, and the national radar of the seven axes.
 *
 * The dashboard's `filteredCases` applies the same three filters and the same newest-first sort as
 * the report's `filterCasesForReport`, and its `governorateAxisAverages` is the report's
 * computation; both are `PeriodicReport.FilterCasesForReport` and
 * `PeriodicReport.ComputeGovernorateAxisAverages` here.
 */
module SupervisorDashboard {
  import opened Wrappers
  import opened JsText
  import opened Arith
  import opened Lists
  import opened Records
  import opened PeriodicReport

  // ---------------------------------------------------------------- specialists count

  /** `specialistsCount`: all specialists, or only those of the selected governorate when one is selected. */
  function SpecialistsCount(users: seq<User>, selectedGovernorateId: string): nat {
    var specialists := Filter(users, IsSpecialist);
    if selectedGovernorateId == "" then |specialists|
    else Count(specialists, UserInGovernorate(selectedGovernorateId))
  }

  /** The users the count is about: specialists, of the selected governorate if there is one. */
  function CountedSpecialist(selectedGovernorateId: string): User -> bool {
    (u: User) => IsSpecialist(u) && (selectedGovernorateId == "" || u.governorateId == selectedGovernorateId)
  }

  /**
   * The count is the number of users who are specialists and, when a governorate is selected,
   * belong to it; selecting a governorate never raises it.
   */
  lemma SpecialistsCountCorrect(users: seq<User>, selectedGovernorateId: string)
    ensures SpecialistsCount(users, selectedGovernorateId) == Count(users, CountedSpecialist(selectedGovernorateId))
    ensures SpecialistsCount(users, selectedGovernorateId) <= SpecialistsCount(users, "")
  {
    FilterExt(users, IsSpecialist, CountedSpecialist(""));
    if selectedGovernorateId != "" {
      FilterTwice(users, IsSpecialist, UserInGovernorate(selectedGovernorateId), CountedSpecialist(selectedGovernorateId));
    }
    CountMonotone(users, CountedSpecialist(selectedGovernorateId), CountedSpecialist(""));
  }

  // ---------------------------------------------------------------- report delay

  /** `1000 * 60 * 60 * 24`. */
  const MsPerDay: int := 86400000

  /**
   * The whole days from a case's creation to its diagnosis, `Math.round` of the difference in
   * days: none when either date is missing or unparsable, or when the difference is negative.
   */
  function ReportDays(c: Case): (d: Option<int>)
    ensures d.Some? ==> d.value >= 0 && c.createdAt.Date? && c.diagnosisDate.Date?
  {
    if c.createdAt.Date? && c.diagnosisDate.Date? then
      var days := RoundDiv(c.diagnosisDate.at.ms - c.createdAt.at.ms, MsPerDay);
      if days >= 0 then Some(days) else None
    else None
  }

  function HasReportDays(c: Case): bool {
    ReportDays(c).Some?
  }

  /** The `map` to days or `null` followed by the `filter` keeping the numbers. */
  function ReportDiffs(cases: seq<Case>): (r: seq<int>)
    ensures |r| <= |cases|
  {
    if cases == [] then []
    else (match ReportDays(cases[0]) case Some(d) => [d] case None => []) + ReportDiffs(cases[1..])
  }

  /** The differences are those of the qualifying cases, one each, in case order. */
  lemma {:induction false} ReportDiffsOfQualifying(cases: seq<Case>)
    ensures var q := Filter(cases, HasReportDays);
      && |ReportDiffs(cases)| == |q|
      && forall i :: 0 <= i < |q| ==> ReportDays(q[i]) == Some(ReportDiffs(cases)[i])
  {
    if cases != [] {
      var q, qr := Filter(cases, HasReportDays), Filter(cases[1..], HasReportDays);
      var rest := ReportDiffs(cases[1..]);
      ReportDiffsOfQualifying(cases[1..]);
      if HasReportDays(cases[0]) {
        assert q == [cases[0]] + qr;
        assert ReportDiffs(cases) == [ReportDays(cases[0]).value] + rest;
        forall i | 0 < i < |q| ensures ReportDays(q[i]) == Some(ReportDiffs(cases)[i]) {
          assert q[i] == qr[i - 1];
        }
      } else {
        assert q == qr;
        assert ReportDiffs(cases) == rest;
      }
    }
  }

  /** `avgReportDays`: the rounded mean of the differences, 0 when no case qualifies. */
  function AvgReportDays(filteredCases: seq<Case>): int {
    var diffs := ReportDiffs(filteredCases);
    if |diffs| == 0 then 0 else RoundDiv(Sum(diffs), |diffs|)
  }

  /**
   * With no qualifying case the mean is 0; otherwise it lies within any bounds on the qualifying
   * cases' delays, so in particular it is never negative.
   */
  lemma AvgReportDaysBounds(filteredCases: seq<Case>, lo: int, hi: int)
    requires forall i :: 0 <= i < |filteredCases| && HasReportDays(filteredCases[i]) ==>
      lo <= ReportDays(filteredCases[i]).value <= hi
    ensures Count(filteredCases, HasReportDays) == 0 ==> AvgReportDays(filteredCases) == 0
    ensures Count(filteredCases, HasReportDays) > 0 ==> lo <= AvgReportDays(filteredCases) <= hi
  {
    var q := Filter(filteredCases, HasReportDays);
    var diffs := ReportDiffs(filteredCases);
    ReportDiffsOfQualifying(filteredCases);
    if |diffs| > 0 {
      forall i | 0 <= i < |diffs| ensures lo <= diffs[i] <= hi {
        assert q[i] in filteredCases;
        var m :| 0 <= m < |filteredCases| && filteredCases[m] == q[i];
        assert HasReportDays(filteredCases[m]);
      }
      SumBounds(diffs, lo, hi);
      RoundDivBounds(Sum(diffs), |diffs|, lo, hi);
    }
  }

  /** The mean delay is never negative. */
  lemma AvgReportDaysNonNegative(filteredCases: seq<Case>)
    ensures AvgReportDays(filteredCases) >= 0
  {
    var diffs := ReportDiffs(filteredCases);
    ReportDiffsOfQualifying(filteredCases);
    if |diffs| > 0 {
      var q := Filter(filteredCases, HasReportDays);
      forall i | 0 <= i < |diffs| ensures 0 <= diffs[i] {
        assert ReportDays(q[i]) == Some(diffs[i]);
      }
      NonNegativeSum(diffs);
      DivAtLeast(2 * Sum(diffs) + |diffs|, 2 * |diffs|, 0);
    }
  }

  lemma {:induction false} NonNegativeSum(s: seq<int>)
    requires forall i :: 0 <= i < |s| ==> 0 <= s[i]
    ensures 0 <= Sum(s)
  {
    if s != [] {
      NonNegativeSum(s[1..]);
    }
  }

  // ---------------------------------------------------------------- audited cases

  /** `{ caseItem, audit }`. */
  datatype AuditedCase = AuditedCase(caseItem: Case, audit: Audit)

  /**
   * `auditedCases`: each filtered case paired with its audit (the last one stored for its id),
   * keeping only the cases that have one.
   */
  function AuditedCases(filteredCases: seq<Case>, audits: seq<Audit>): (r: seq<AuditedCase>)
    ensures |r| <= |filteredCases|
    ensures forall i :: 0 <= i < |r| ==> LastAuditFor(audits, r[i].caseItem.id) == Some(r[i].audit)
  {
    if filteredCases == [] then []
    else
      var head := match LastAuditFor(audits, filteredCases[0].id)
        case Some(a) => [AuditedCase(filteredCases[0], a)]
        case None => [];
      head + AuditedCases(filteredCases[1..], audits)
  }

  function CaseItems(r: seq<AuditedCase>): (cs: seq<Case>)
    ensures |cs| == |r| && forall i :: 0 <= i < |r| ==> cs[i] == r[i].caseItem
  {
    seq(|r|, i requires 0 <= i < |r| => r[i].caseItem)
  }

  lemma CaseItemsPrepend(p: AuditedCase, rest: seq<AuditedCase>)
    ensures CaseItems([p] + rest) == [p.caseItem] + CaseItems(rest)
  {
    var l, r := CaseItems([p] + rest), [p.caseItem] + CaseItems(rest);
    forall i | 0 <= i < |l| ensures l[i] == r[i] {
      if i > 0 {
        assert ([p] + rest)[i] == rest[i - 1];
      }
    }
  }

  /** The audited cases are the filtered cases that have an audit, in the filtered order. */
  lemma {:induction false} AuditedCasesKeepOrder(filteredCases: seq<Case>, audits: seq<Audit>)
    ensures CaseItems(AuditedCases(filteredCases, audits)) == Filter(filteredCases, HasAudit(audits))
  {
    if filteredCases != [] {
      AuditedCasesKeepOrder(filteredCases[1..], audits);
      var rest := AuditedCases(filteredCases[1..], audits);
      var q := Filter(filteredCases[1..], HasAudit(audits));
      var c := filteredCases[0];
      if HasAudit(audits)(c) {
        var p := AuditedCase(c, LastAuditFor(audits, c.id).value);
        assert Filter(filteredCases, HasAudit(audits)) == [c] + q;
        assert AuditedCases(filteredCases, audits) == [p] + rest;
        CaseItemsPrepend(p, rest);
      } else {
        assert Filter(filteredCases, HasAudit(audits)) == q;
        assert AuditedCases(filteredCases, audits) == rest;
      }
    }
  }

  // ---------------------------------------------------------------- audits without major notes

  /** A trimmed general note this long or longer is a major note. */
  const GeneralNotesLimit: nat := 120
  /** A trimmed axis note this long or longer is a major note. */
  const AxisNoteLimit: nat := 160

  /** The axes whose trimmed note is long (`axisLens.filter((n) => n >= 160)`), by key. */
  function LongAxisNotes(notes: map<string, string>): set<string> {
    set k | k in notes && Utf16Length(Trim(notes[k])) >= AxisNoteLimit
  }

  /**
   * `isNoMajor(audit)`: the review carries the "completed" status (a literal of the source,
   * passed as `completedLabel`), its trimmed general notes are short and no axis note is long.
   */
  predicate IsNoMajor(audit: Audit, completedLabel: string) {
    if audit.reviewStatus != completedLabel then false
    else if Utf16Length(Trim(audit.generalNotes)) >= GeneralNotesLimit then false
    else |LongAxisNotes(audit.axisNotes)| == 0
  }

  /** An audit has no major note exactly when all three conditions hold. */
  lemma IsNoMajorIff(audit: Audit, completedLabel: string)
    ensures IsNoMajor(audit, completedLabel) <==>
      && audit.reviewStatus == completedLabel
      && Utf16Length(Trim(audit.generalNotes)) < GeneralNotesLimit
      && forall k :: k in audit.axisNotes ==> Utf16Length(Trim(audit.axisNotes[k])) < AxisNoteLimit
  {
    var long := LongAxisNotes(audit.axisNotes);
    if k :| k in audit.axisNotes && Utf16Length(Trim(audit.axisNotes[k])) >= AxisNoteLimit {
      assert k in long;
    } else {
      assert long == {};
    }
  }

  function NoMajor(completedLabel: string): AuditedCase -> bool {
    (x: AuditedCase) => IsNoMajor(x.audit, completedLabel)
  }

  /** `noMajorNotesPct`: the rounded percentage of audited cases without major notes, 0 when none is audited. */
  function NoMajorNotesPct(audited: seq<AuditedCase>, completedLabel: string): (pct: int)
    ensures 0 <= pct <= 100
  {
    if |audited| == 0 then 0
    else
      var ok := Count(audited, NoMajor(completedLabel));
      RoundDivBounds(100 * ok, |audited|, 0, 100);
      RoundDiv(100 * ok, |audited|)
  }

  /** The percentage is 0 when no audit is free of major notes and 100 when all are. */
  lemma NoMajorNotesPctExtremes(audited: seq<AuditedCase>, completedLabel: string)
    ensures Count(audited, NoMajor(completedLabel)) == 0 ==> NoMajorNotesPct(audited, completedLabel) == 0
    ensures |audited| > 0 && Count(audited, NoMajor(completedLabel)) == |audited| ==>
      NoMajorNotesPct(audited, completedLabel) == 100
  {
    if |audited| > 0 {
      var ok := Count(audited, NoMajor(completedLabel));
      if ok == 0 {
        RoundDivBounds(0, |audited|, 0, 0);
      } else if ok == |audited| {
        RoundDivBounds(100 * ok, |audited|, 100, 100);
      }
    }
  }

  // ---------------------------------------------------------------- radar

  /**
   * `radarAverages`: for each axis, the rounded mean of that axis over the governorate rows
   * (a row without the axis counts 0), divided by at least 1, clamped to [0, 100].
   */
  function RadarAverages(stats: seq<GovernorateAxes>, axes: seq<Axis>): (r: seq<AxisValue>)
    ensures |r| == |axes|
    ensures forall i :: 0 <= i < |r| ==> r[i].key == axes[i].key && r[i].name == axes[i].title
    ensures forall i :: 0 <= i < |r| ==> 0 <= r[i].value <= 100
  {
    seq(|axes|, i requires 0 <= i < |axes| => AxisValue(axes[i].key, axes[i].title, Clamp(AxisMeanValue(stats, i), 0, 100)))
  }

  /**
   * With no governorate rows every axis is 0; when every row's value on axis `i` lies in
   * [lo, hi] within [0, 100], the radar value lies in [lo, hi] and the clamp changes nothing.
   */
  lemma RadarAverageBounds(stats: seq<GovernorateAxes>, axes: seq<Axis>, i: nat, lo: int, hi: int)
    requires i < |axes|
    requires 0 <= lo <= hi <= 100
    requires forall g :: 0 <= g < |stats| ==> i < |stats[g].axes| && lo <= stats[g].axes[i].value <= hi
    ensures stats == [] ==> RadarAverages(stats, axes)[i].value == 0
    ensures stats != [] ==>
      && RadarAverages(stats, axes)[i].value == AxisMeanValue(stats, i)
      && lo <= RadarAverages(stats, axes)[i].value <= hi
  {
    var column := seq(|stats|, gi requires 0 <= gi < |stats| => AxisValueAt(stats[gi], i));
    if stats == [] {
      assert column == [];
    } else {
      SumBounds(column, lo, hi);
      RoundDivBounds(Sum(column), |stats|, lo, hi);
    }
  }

  /**
   * On the dashboard's own governorate rows (eleven of them, every axis in [0, 100]) each radar
   * value is exactly the rounded national mean of that axis.
   */
  lemma RadarOfGovernorateRows(filteredCases: seq<Case>, audits: seq<Audit>, axes: seq<Axis>, i: nat)
    requires i < |axes|
    ensures var stats := ComputeGovernorateAxisAverages(filteredCases, audits, axes);
      RadarAverages(stats, axes)[i].value == AxisMeanValue(stats, i)
  {
    var stats := ComputeGovernorateAxisAverages(filteredCases, audits, axes);
    RadarAverageBounds(stats, axes, i, 0, 100);
  }

  /**
   * As written, the radar's rows come from the governorate-filtered cases: with a governorate
   * selected, every other governorate's row is the one it would have with no cases at all.
   */
  lemma DeselectedGovernorateRow(allCases: seq<Case>, f: ReportFilters, audits: seq<Audit>, axes: seq<Axis>, g: Governorate)
    requires f.selectedGovernorateId != "" && g.id != f.selectedGovernorateId
    ensures GovernorateAverages(g, FilterCasesForReport(allCases, f), audits, axes) == GovernorateAverages(g, [], audits, axes)
  {
    var filtered := FilterCasesForReport(allCases, f);
    FilterCasesForReportMembers(allCases, f);
    FilterNone(filtered, GovernorateIs(g.id));
  }

  /**
   * The national radar the dashboard describes: the governorate rows computed from the cases
   * under every filter except the governorate one.
   */
  function NationalRadar(allCases: seq<Case>, f: ReportFilters, audits: seq<Audit>, axes: seq<Axis>): (r: seq<AxisValue>)
    ensures |r| == |axes|
    ensures forall i :: 0 <= i < |r| ==> 0 <= r[i].value <= 100
  {
    var national := f.(selectedGovernorateId := "");
    RadarAverages(ComputeGovernorateAxisAverages(FilterCasesForReport(allCases, national), audits, axes), axes)
  }

  /** The national radar does not depend on the selected governorate. */
  lemma NationalRadarIgnoresGovernorate(allCases: seq<Case>, f: ReportFilters, audits: seq<Audit>, axes: seq<Axis>, id: string)
    ensures NationalRadar(allCases, f.(selectedGovernorateId := id), audits, axes) == NationalRadar(allCases, f, audits, axes)
  {
    assert f.(selectedGovernorateId := id).(selectedGovernorateId := "") == f.(selectedGovernorateId := "");
  }

  /** With no governorate selected, the national radar is the radar of the filtered report. */
  lemma NationalRadarWithoutGovernorate(allCases: seq<Case>, f: ReportFilters, audits: seq<Audit>, axes: seq<Axis>)
    requires f.selectedGovernorateId == ""
    ensures NationalRadar(allCases, f, audits, axes)
         == RadarAverages(ComputeGovernorateAxisAverages(FilterCasesForReport(allCases, f), audits, axes), axes)
  {
    assert f.(selectedGovernorateId := "") == f;
  }
}
