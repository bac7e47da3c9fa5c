/**
 * The periodic report engine of `src/utils/report/periodicMalaaReport.js`: it filters the cases,
 * counts schools, programs, referral sources and genders, buckets the last six months, measures
 * specialist coverage, derives per-governorate axis scores from the central reviews with a
 * seeded generator, ranks the governorates and picks the weakest axis.
 *
 * Percentages are integer tenths of a percent: the source's `Math.round(x * 1000) / 10` is the
 * tenths value over 10, so every statement about a percentage in [0, 100] is one about tenths
 * in [0, 1000].
 */
module PeriodicReport {
  import opened Wrappers
  import opened JsText
  import opened Arith
  import opened Lists
  import opened Sorting
  import opened Prng
  import opened Records

  function Max(a: int, b: int): int {
    if a >= b then a else b
  }

  function Min(a: int, b: int): int {
    if a <= b then a else b
  }

  /** `clamp(n, lo, hi)`: `Math.max(lo, Math.min(hi, n))`. */
  function Clamp(n: int, lo: int, hi: int): (r: int)
    ensures lo <= hi ==> lo <= r <= hi
    ensures lo <= n <= hi ==> r == n
    ensures n < lo ==> r == lo
    ensures lo <= hi < n ==> r == hi
  {
    Max(lo, Min(hi, n))
  }

  datatype Axis = Axis(key: string, title: string)

  /** `PROFESSIONAL_AXES`: the seven professional axes of a central review, in order. */
  const ProfessionalAxes: seq<Axis> := [
    Axis("axis1", "التحضير والاستعداد المهني"),
    Axis("axis2", "جودة أدوات القياس المستخدمة"),
    Axis("axis3", "دقة التحليل والتفسير"),
    Axis("axis4", "جودة التوصيات والتقارير"),
    Axis("axis5", "التوثيق والحوكمة"),
    Axis("axis6", "التواصل المهني"),
    Axis("axis7", "التطوير المستمر والتعلم الذاتي")
  ]

  /* ---------------------------------------------------------------- filtering */

  /**
   * `isWithinRange(dateValue, from, to)`: the case date must parse; a bound that is missing or
   * does not parse is ignored; both bounds are inclusive.
   */
  predicate IsWithinRange(d: DateStr, from: DateStr, to: DateStr) {
    match d.Parse()
    case None => false
    case Some(t) =>
      (from.Parse().Some? ==> from.Parse().value.ms <= t.ms)
      && (to.Parse().Some? ==> t.ms <= to.Parse().value.ms)
  }

  /** The three rules of `isWithinRange`, stated one by one. */
  lemma IsWithinRangeRules(d: DateStr, from: DateStr, to: DateStr)
    ensures !d.Date? ==> !IsWithinRange(d, from, to)
    ensures !from.Date? ==> IsWithinRange(d, from, to) == IsWithinRange(d, NoDate, to)
    ensures !to.Date? ==> IsWithinRange(d, from, to) == IsWithinRange(d, from, NoDate)
    ensures d.Date? && from.Date? && to.Date? ==>
      (IsWithinRange(d, from, to) <==> from.at.ms <= d.at.ms <= to.at.ms)
  {
  }

  /** The report filters; an empty text or a `NoDate` bound is an unset filter (`filters || {}` sets none). */
  datatype ReportFilters = ReportFilters(
    selectedGovernorateId: string,
    selectedDisabilityType: string,
    fromDate: DateStr,
    toDate: DateStr)

  /** Whether the date criterion is active: `f.fromDate || f.toDate`, so a set but unparsable bound switches it on. */
  predicate DateFilterActive(f: ReportFilters) {
    f.fromDate.IsSet() || f.toDate.IsSet()
  }

  /** A case passes every active criterion. */
  predicate MatchesReportFilters(c: Case, f: ReportFilters) {
    (f.selectedGovernorateId != "" ==> c.governorateId == f.selectedGovernorateId)
    && (f.selectedDisabilityType != "" ==> c.disabilityType == f.selectedDisabilityType)
    && (DateFilterActive(f) ==> IsWithinRange(c.createdAt, f.fromDate, f.toDate))
  }

  function GovernorateIs(id: string): Case -> bool {
    (c: Case) => c.governorateId == id
  }

  function DisabilityIs(t: string): Case -> bool {
    (c: Case) => c.disabilityType == t
  }

  function CreatedWithin(from: DateStr, to: DateStr): Case -> bool {
    (c: Case) => IsWithinRange(c.createdAt, from, to)
  }

  function ReportCriteria(f: ReportFilters): Case -> bool {
    (c: Case) => MatchesReportFilters(c, f)
  }

  /** The three `filter` passes of `filterCasesForReport`, each applied only when its criterion is set. */
  function SelectForReport(cases: seq<Case>, f: ReportFilters): seq<Case> {
    var byGovernorate :=
      if f.selectedGovernorateId != "" then Filter(cases, GovernorateIs(f.selectedGovernorateId)) else cases;
    var byDisability :=
      if f.selectedDisabilityType != "" then Filter(byGovernorate, DisabilityIs(f.selectedDisabilityType))
      else byGovernorate;
    if DateFilterActive(f) then Filter(byDisability, CreatedWithin(f.fromDate, f.toDate)) else byDisability
  }

  /** The passes AND their criteria: the selection is the cases satisfying every active criterion, in input order. */
  lemma SelectForReportIsConjunction(cases: seq<Case>, f: ReportFilters)
    ensures SelectForReport(cases, f) == Filter(cases, ReportCriteria(f))
  {
    var p1 := (c: Case) => f.selectedGovernorateId != "" ==> c.governorateId == f.selectedGovernorateId;
    var p2 := (c: Case) => f.selectedDisabilityType != "" ==> c.disabilityType == f.selectedDisabilityType;
    var p3 := (c: Case) => DateFilterActive(f) ==> IsWithinRange(c.createdAt, f.fromDate, f.toDate);
    var p12 := (c: Case) => p1(c) && p2(c);
    var s1 := if f.selectedGovernorateId != "" then Filter(cases, GovernorateIs(f.selectedGovernorateId)) else cases;
    if f.selectedGovernorateId != "" {
      FilterExt(cases, GovernorateIs(f.selectedGovernorateId), p1);
    } else {
      FilterAll(cases, p1);
    }
    var s2 := if f.selectedDisabilityType != "" then Filter(s1, DisabilityIs(f.selectedDisabilityType)) else s1;
    if f.selectedDisabilityType != "" {
      FilterExt(s1, DisabilityIs(f.selectedDisabilityType), p2);
    } else {
      FilterAll(s1, p2);
    }
    FilterTwice(cases, p1, p2, p12);
    if DateFilterActive(f) {
      FilterExt(s2, CreatedWithin(f.fromDate, f.toDate), p3);
    } else {
      FilterAll(s2, p3);
    }
    FilterTwice(cases, p12, p3, ReportCriteria(f));
  }

  /**
   * The time the sort comparator reads from `new Date(createdAt)`. A missing or unparsable date
   * makes the comparator return NaN, which the model replaces by time 0.
   */
  function CreatedTime(c: Case): int {
    match c.createdAt.Parse()
    case Some(t) => t.ms
    case None => 0
  }

  /** The sort key of `(a, b) => new Date(b.createdAt) - new Date(a.createdAt)`: newest first. */
  function NewestFirst(c: Case): seq<int> {
    [-CreatedTime(c)]
  }

  /** `filterCasesForReport`: the selection, stably sorted newest first. The input sequence is a value and stays as it was. */
  function FilterCasesForReport(cases: seq<Case>, f: ReportFilters): seq<Case> {
    SortByKey(SelectForReport(cases, f), NewestFirst)
  }

  /** Sorting by `NewestFirst` leaves the creation times non-increasing. */
  lemma NewestFirstSorted(s: seq<Case>)
    ensures forall i, j :: 0 <= i < j < |SortByKey(s, NewestFirst)| ==>
      CreatedTime(SortByKey(s, NewestFirst)[i]) >= CreatedTime(SortByKey(s, NewestFirst)[j])
  {
    SortByKeyCorrect(s, NewestFirst);
    var r := SortByKey(s, NewestFirst);
    forall i, j | 0 <= i < j < |r| ensures CreatedTime(r[i]) >= CreatedTime(r[j]) {
      assert !LexLess(NewestFirst(r[j]), NewestFirst(r[i]));
      LexLessSingle(-CreatedTime(r[j]), -CreatedTime(r[i]));
    }
  }

  /**
   * The report's cases are the input cases satisfying every active criterion, with their
   * multiplicities, newest first, and cases of equal time keep their input order.
   */
  lemma FilterCasesForReportCorrect(cases: seq<Case>, f: ReportFilters)
    ensures multiset(FilterCasesForReport(cases, f)) == multiset(Filter(cases, ReportCriteria(f)))
    ensures forall k :: WithKey(FilterCasesForReport(cases, f), NewestFirst, k) == WithKey(Filter(cases, ReportCriteria(f)), NewestFirst, k)
    ensures forall i, j :: 0 <= i < j < |FilterCasesForReport(cases, f)| ==>
      CreatedTime(FilterCasesForReport(cases, f)[i]) >= CreatedTime(FilterCasesForReport(cases, f)[j])
  {
    SelectForReportIsConjunction(cases, f);
    SortByKeyCorrect(SelectForReport(cases, f), NewestFirst);
    NewestFirstSorted(SelectForReport(cases, f));
  }

  /**
   * Every report case satisfies every active criterion, every input case that does is in the
   * report, and with a date criterion active every report case has a parsable creation date.
   */
  lemma FilterCasesForReportMembers(cases: seq<Case>, f: ReportFilters)
    ensures forall i :: 0 <= i < |FilterCasesForReport(cases, f)| ==> MatchesReportFilters(FilterCasesForReport(cases, f)[i], f)
    ensures forall i :: 0 <= i < |cases| && MatchesReportFilters(cases[i], f) ==> cases[i] in FilterCasesForReport(cases, f)
    ensures DateFilterActive(f) ==>
      forall i :: 0 <= i < |FilterCasesForReport(cases, f)| ==> FilterCasesForReport(cases, f)[i].createdAt.Date?
  {
    var sel := SelectForReport(cases, f);
    SelectForReportIsConjunction(cases, f);
    var r := SortByKey(sel, NewestFirst);
    forall i | 0 <= i < |r| ensures MatchesReportFilters(r[i], f) {
      SortByKeyMembers(sel, NewestFirst, r[i]);
      FilterMembership(cases, ReportCriteria(f), r[i]);
      assert ReportCriteria(f)(r[i]);
    }
    forall i | 0 <= i < |cases| && MatchesReportFilters(cases[i], f) ensures cases[i] in r {
      assert ReportCriteria(f)(cases[i]);
      FilterMembership(cases, ReportCriteria(f), cases[i]);
      SortByKeyMembers(sel, NewestFirst, cases[i]);
    }
  }

  /* ---------------------------------------------------------------- counts and distributions */

  /** The case names a school of type `t`: the type matches and the trimmed school name is non-empty. */
  function HasSchoolOfType(t: string): Case -> bool {
    (c: Case) => c.schoolType == t && Trim(c.school) != ""
  }

  /** The case carries school name `x` (trimmed, non-empty) under type `t`. */
  predicate NamesSchool(c: Case, t: string, x: string) {
    c.schoolType == t && Trim(c.school) == x && x != ""
  }

  /** The distinct trimmed, non-empty school names of the cases whose school type is `t`. */
  function SchoolsOfType(cases: seq<Case>, t: string): set<string> {
    if cases == [] then {}
    else
      var c := cases[|cases| - 1];
      SchoolsOfType(cases[..|cases| - 1], t) + (if HasSchoolOfType(t)(c) then {Trim(c.school)} else {})
  }

  /** Every name in the set comes from some case of that type. */
  lemma {:induction false} SchoolsOfTypeSource(cases: seq<Case>, t: string, x: string) returns (i: nat)
    requires x in SchoolsOfType(cases, t)
    ensures i < |cases| && NamesSchool(cases[i], t, x)
  {
    var init, c := cases[..|cases| - 1], cases[|cases| - 1];
    if x in SchoolsOfType(init, t) {
      i := SchoolsOfTypeSource(init, t, x);
      assert cases[i] == init[i];
    } else {
      i := |cases| - 1;
    }
  }

  /** Every trimmed, non-empty school name of a case of that type is in the set. */
  lemma {:induction false} SchoolsOfTypeComplete(cases: seq<Case>, t: string, i: nat)
    requires i < |cases| && HasSchoolOfType(t)(cases[i])
    ensures Trim(cases[i].school) in SchoolsOfType(cases, t)
  {
    var init := cases[..|cases| - 1];
    if i < |init| {
      assert init[i] == cases[i];
      SchoolsOfTypeComplete(init, t, i);
    }
  }

  /** A name is counted for type `t` exactly when some case of that type carries it, trimmed and non-empty. */
  lemma SchoolsOfTypeMembers(cases: seq<Case>, t: string, x: string)
    ensures x in SchoolsOfType(cases, t) <==> exists i :: 0 <= i < |cases| && NamesSchool(cases[i], t, x)
  {
    if x in SchoolsOfType(cases, t) {
      var i := SchoolsOfTypeSource(cases, t, x);
    }
    if i :| 0 <= i < |cases| && NamesSchool(cases[i], t, x) {
      SchoolsOfTypeComplete(cases, t, i);
    }
  }

  /** There are no more distinct schools of a type than cases naming a school of that type. */
  lemma {:induction false} SchoolsOfTypeSize(cases: seq<Case>, t: string)
    ensures |SchoolsOfType(cases, t)| <= Count(cases, HasSchoolOfType(t))
  {
    if cases != [] {
      var init, c := cases[..|cases| - 1], cases[|cases| - 1];
      assert cases == init + [c];
      SchoolsOfTypeSize(init, t);
      CountAppend(init, c, HasSchoolOfType(t));
    }
  }

  /** One more case adds its school name, if it names one of that type. */
  lemma SchoolsOfTypeStep(cases: seq<Case>, i: nat, t: string)
    requires i < |cases|
    ensures SchoolsOfType(cases[..i + 1], t)
      == SchoolsOfType(cases[..i], t) + (if HasSchoolOfType(t)(cases[i]) then {Trim(cases[i].school)} else {})
  {
    assert cases[..i + 1][..i] == cases[..i];
  }

  datatype EducationStructure = EducationStructure(publicCount: nat, privateCount: nat, totalSchools: nat)

  /** `computeEducationStructure`: one pass adding each case's trimmed school name to the set of its type. */
  method ComputeEducationStructure(cases: seq<Case>) returns (e: EducationStructure)
    ensures e == EducationStructureOf(cases)
  {
    var publicSchools: set<string> := {};
    var privateSchools: set<string> := {};
    for i := 0 to |cases|
      invariant publicSchools == SchoolsOfType(cases[..i], SchoolPublic)
      invariant privateSchools == SchoolsOfType(cases[..i], SchoolPrivate)
    {
      var c := cases[i];
      var schoolName := Trim(c.school);
      ghost var before := (publicSchools, privateSchools);
      if schoolName != "" {
        if c.schoolType == SchoolPublic {
          publicSchools := publicSchools + {schoolName};
        }
        if c.schoolType == SchoolPrivate {
          privateSchools := privateSchools + {schoolName};
        }
      }
      assert publicSchools == before.0 + (if HasSchoolOfType(SchoolPublic)(c) then {schoolName} else {});
      assert privateSchools == before.1 + (if HasSchoolOfType(SchoolPrivate)(c) then {schoolName} else {});
      SchoolsOfTypeStep(cases, i, SchoolPublic);
      SchoolsOfTypeStep(cases, i, SchoolPrivate);
    }
    assert cases[..|cases|] == cases;
    e := EducationStructure(|publicSchools|, |privateSchools|, |publicSchools| + |privateSchools|);
  }

  /** The structure the pass computes: the number of distinct schools of each type, and their total. */
  function EducationStructureOf(cases: seq<Case>): (e: EducationStructure)
    ensures e.totalSchools == e.publicCount + e.privateCount
  {
    var publicCount := |SchoolsOfType(cases, SchoolPublic)|;
    var privateCount := |SchoolsOfType(cases, SchoolPrivate)|;
    EducationStructure(publicCount, privateCount, publicCount + privateCount)
  }

  /** Public and private schools come from different cases, so together they number at most the cases. */
  lemma EducationStructureBound(cases: seq<Case>)
    ensures |SchoolsOfType(cases, SchoolPublic)| + |SchoolsOfType(cases, SchoolPrivate)| <= |cases|
  {
    SchoolsOfTypeSize(cases, SchoolPublic);
    SchoolsOfTypeSize(cases, SchoolPrivate);
    CountDisjoint(cases, HasSchoolOfType(SchoolPublic), HasSchoolOfType(SchoolPrivate));
  }

  /** The two categorical case fields the report tabulates. */
  datatype CaseAttribute = EducationProgram | ReferralSource

  function AttributeOf(c: Case, a: CaseAttribute): string {
    match a
    case EducationProgram => c.educationProgram
    case ReferralSource => c.referralSource
  }

  /** A case is counted under `name`: its attribute is truthy and equals the name. */
  function AttributeIs(a: CaseAttribute, name: string): Case -> bool {
    (c: Case) => AttributeOf(c, a) != "" && AttributeOf(c, a) == name
  }

  function AttributeIn(a: CaseAttribute, names: seq<string>): Case -> bool {
    (c: Case) => AttributeOf(c, a) != "" && AttributeOf(c, a) in names
  }

  function CountOf(cases: seq<Case>, a: CaseAttribute, name: string): nat {
    Count(cases, AttributeIs(a, name))
  }

  predicate Distinct(names: seq<string>) {
    forall i, j :: 0 <= i < j < |names| ==> names[i] != names[j]
  }

  /** The referral sources are four different names (their lengths already differ). */
  lemma ReferralSourcesDistinct()
    ensures Distinct(ReferralSources)
  {
    var lengths := seq(|ReferralSources|, i requires 0 <= i < |ReferralSources| => |ReferralSources[i]|);
    assert lengths == [7, 21, 11, 37];
  }

  /** One row of a distribution: a category, its case count and its share in tenths of a percent. */
  datatype Share = Share(name: string, value: nat, percentTenths: int)

  /**
   * `computeEducationProgramDistribution` and `computeReferralDistribution`: a zeroed counter per
   * listed name, one pass over the cases incrementing the counter of a truthy listed value, then
   * one row per name in list order with its share of `max(1, n)`.
   */
  method ComputeDistribution(cases: seq<Case>, names: seq<string>, a: CaseAttribute) returns (rows: seq<Share>)
    requires Distinct(names)
    ensures rows == DistributionRows(cases, names, a)
  {
    var total := Max(1, |cases|);
    var counts := CountByName(cases, names, a);
    rows := [];
    for i := 0 to |names|
      invariant |rows| == i
      invariant forall j :: 0 <= j < i ==>
        rows[j] == Share(names[j], CountOf(cases, a, names[j]), PercentTenths(CountOf(cases, a, names[j]), total))
    {
      rows := rows + [Share(names[i], counts[names[i]], PercentTenths(counts[names[i]], total))];
    }
  }

  /** The rows of a distribution: per listed name, in list order, its count and its share of `max(1, n)`. */
  function DistributionRows(cases: seq<Case>, names: seq<string>, a: CaseAttribute): (rows: seq<Share>)
    ensures |rows| == |names|
  {
    seq(|names|, i requires 0 <= i < |names| =>
      Share(names[i], CountOf(cases, a, names[i]), PercentTenths(CountOf(cases, a, names[i]), Max(1, |cases|))))
  }

  /** The counting pass: a counter per listed name, incremented for each case whose truthy value is listed. */
  method CountByName(cases: seq<Case>, names: seq<string>, a: CaseAttribute) returns (counts: map<string, nat>)
    ensures forall n :: n in counts <==> n in names
    ensures forall n :: n in counts ==> counts[n] == CountOf(cases, a, n)
  {
    counts := map n | n in names :: 0;
    for k := 0 to |cases|
      invariant forall n :: n in counts <==> n in names
      invariant forall n :: n in counts ==> counts[n] == CountOf(cases[..k], a, n)
    {
      var v := AttributeOf(cases[k], a);
      CountOfStep(cases, k, a);
      if v != "" && v in counts {
        counts := counts[v := counts[v] + 1];
      }
    }
    assert cases[..|cases|] == cases;
  }

  /** Extending the prefix by one case adds one to the count of that case's truthy value only. */
  lemma CountOfStep(cases: seq<Case>, k: nat, a: CaseAttribute)
    requires k < |cases|
    ensures forall n ::
      CountOf(cases[..k + 1], a, n)
        == CountOf(cases[..k], a, n) + (if AttributeOf(cases[k], a) != "" && AttributeOf(cases[k], a) == n then 1 else 0)
  {
    assert cases[..k + 1] == cases[..k] + [cases[k]];
    forall n
      ensures CountOf(cases[..k + 1], a, n)
        == CountOf(cases[..k], a, n) + (if AttributeOf(cases[k], a) != "" && AttributeOf(cases[k], a) == n then 1 else 0)
    {
      CountAppend(cases[..k], cases[k], AttributeIs(a, n));
    }
  }

  /** The counts of distinct names, added up. */
  function SumCounts(cases: seq<Case>, a: CaseAttribute, names: seq<string>): nat {
    if names == [] then 0 else CountOf(cases, a, names[0]) + SumCounts(cases, a, names[1..])
  }

  /** Distinct names count disjoint sets of cases, so the counts add up to the cases with a listed value. */
  lemma {:induction false} SumCountsIsCount(cases: seq<Case>, a: CaseAttribute, names: seq<string>)
    requires Distinct(names)
    ensures SumCounts(cases, a, names) == Count(cases, AttributeIn(a, names))
  {
    if names == [] {
      FilterNone(cases, AttributeIn(a, names));
    } else {
      var rest := names[1..];
      SumCountsIsCount(cases, a, rest);
      forall i | 0 <= i < |cases|
        ensures !(AttributeIs(a, names[0])(cases[i]) && AttributeIn(a, rest)(cases[i]))
        ensures AttributeIn(a, names)(cases[i]) == (AttributeIs(a, names[0])(cases[i]) || AttributeIn(a, rest)(cases[i]))
      {
        assert names == [names[0]] + rest;
        if AttributeOf(cases[i], a) in rest {
          var j :| 0 <= j < |rest| && rest[j] == AttributeOf(cases[i], a);
          assert names[j + 1] == rest[j];
        }
      }
      CountUnion(cases, AttributeIs(a, names[0]), AttributeIn(a, rest), AttributeIn(a, names));
    }
  }

  /**
   * A distribution's counts add up to at most the number of cases; each share lies in [0, 100]
   * percent, and all shares are 0 for an empty input.
   */
  lemma DistributionBounds(cases: seq<Case>, a: CaseAttribute, names: seq<string>)
    requires Distinct(names)
    ensures SumCounts(cases, a, names) <= |cases|
    ensures forall i :: 0 <= i < |names| ==>
      DistributionRows(cases, names, a)[i].name == names[i]
      && DistributionRows(cases, names, a)[i].value == CountOf(cases, a, names[i])
      && 0 <= DistributionRows(cases, names, a)[i].percentTenths <= 1000
    ensures cases == [] ==> forall i :: 0 <= i < |names| ==>
      DistributionRows(cases, names, a)[i].value == 0 && DistributionRows(cases, names, a)[i].percentTenths == 0
  {
    SumCountsIsCount(cases, a, names);
    forall i | 0 <= i < |names|
      ensures 0 <= PercentTenths(CountOf(cases, a, names[i]), Max(1, |cases|)) <= 1000
    {
      PercentTenthsBounds(CountOf(cases, a, names[i]), Max(1, |cases|));
    }
  }

  datatype GenderStats = GenderStats(female: nat, male: nat, femalePercentTenths: int, malePercentTenths: int)

  function GenderIs(g: string): Case -> bool {
    (c: Case) => c.gender == g
  }

  /** `computeGenderStats`: no case is both, so the two counts never exceed the cases, and each share lies in [0, 100] percent. */
  function ComputeGenderStats(cases: seq<Case>): (r: GenderStats)
    ensures r.female == Count(cases, GenderIs(GenderFemale)) && r.male == Count(cases, GenderIs(GenderMale))
    ensures r.female + r.male <= |cases|
    ensures 0 <= r.femalePercentTenths <= 1000 && 0 <= r.malePercentTenths <= 1000
    ensures r.femalePercentTenths == PercentTenths(r.female, Max(1, |cases|))
    ensures r.malePercentTenths == PercentTenths(r.male, Max(1, |cases|))
  {
    var total := Max(1, |cases|);
    var female := Count(cases, GenderIs(GenderFemale));
    var male := Count(cases, GenderIs(GenderMale));
    CountDisjoint(cases, GenderIs(GenderFemale), GenderIs(GenderMale));
    PercentTenthsBounds(female, total);
    PercentTenthsBounds(male, total);
    GenderStats(female, male, PercentTenths(female, total), PercentTenths(male, total))
  }

  /* ---------------------------------------------------------------- six-month trend */

  const MonthNames: seq<string> := [
    "يناير", "فبراير", "مارس", "أبريل", "مايو", "يونيو",
    "يوليو", "أغسطس", "سبتمبر", "أكتوبر", "نوفمبر", "ديسمبر"
  ]

  /** A calendar month: the full year and the month index 0 to 11. */
  datatype YearMonth = YearMonth(year: int, month: int)

  /** The calendar month of `subMonths(now, i)`: `i` months before the month of `now`. */
  function MonthsBefore(now: Instant, i: int): (ym: YearMonth)
    ensures 0 <= ym.month < 12
    ensures ym.year * 12 + ym.month == now.year * 12 + now.month - i
  {
    var m := now.year * 12 + now.month - i;
    YearMonth(m / 12, m % 12)
  }

  /** `new Date(c.createdAt)` falls in the given month; an unparsable or missing date falls in none. */
  function CreatedIn(ym: YearMonth): Case -> bool {
    (c: Case) => c.createdAt.Date? && c.createdAt.at.year == ym.year && c.createdAt.at.month == ym.month
  }

  function InclusionIs(t: string): Case -> bool {
    (c: Case) => c.inclusionType == t
  }

  datatype TrendBucket = TrendBucket(name: string, total: nat, full: nat, partial: nat)

  /** The bucket of one month: its cases, and among them the full and the partial inclusions. */
  function MonthBucket(cases: seq<Case>, ym: YearMonth): TrendBucket
    requires 0 <= ym.month < 12
  {
    var monthCases := Filter(cases, CreatedIn(ym));
    TrendBucket(
      MonthNames[ym.month],
      |monthCases|,
      Count(monthCases, InclusionIs(InclusionFull)),
      Count(monthCases, InclusionIs(InclusionPartial)))
  }

  /** `computeInclusionTrendsLast6Months`: `i` runs from 5 down to 0, pushing the bucket of `subMonths(now, i)`. */
  method ComputeInclusionTrends(cases: seq<Case>, now: Instant) returns (months: seq<TrendBucket>)
    ensures months == InclusionTrends(cases, now)
  {
    months := [];
    var i := 5;
    while i >= 0
      invariant -1 <= i <= 5
      invariant |months| == 5 - i
      invariant forall k :: 0 <= k < |months| ==> months[k] == MonthBucket(cases, MonthsBefore(now, 5 - k))
    {
      var monthDate := MonthsBefore(now, i);
      months := months + [MonthBucket(cases, monthDate)];
      i := i - 1;
    }
    assert |months| == 6;
  }

  /** The six buckets: bucket `k` is the month `5 - k` months before the month of `now`. */
  function InclusionTrends(cases: seq<Case>, now: Instant): (months: seq<TrendBucket>)
    ensures |months| == 6
  {
    seq(6, k requires 0 <= k < 6 => MonthBucket(cases, MonthsBefore(now, 5 - k)))
  }

  /**
   * The buckets run oldest first, one month apart, and the last is the month of `now`; in every
   * bucket the full and partial inclusions number at most its total, and a month without cases
   * is all zeros.
   */
  lemma InclusionTrendShape(cases: seq<Case>, now: Instant, k: int)
    requires 0 <= now.month < 12
    requires 0 <= k < 6
    ensures InclusionTrends(cases, now)[k] == MonthBucket(cases, MonthsBefore(now, 5 - k))
    ensures MonthsBefore(now, 0) == YearMonth(now.year, now.month)
    ensures k < 5 ==>
      MonthsBefore(now, 5 - k).year * 12 + MonthsBefore(now, 5 - k).month + 1
        == MonthsBefore(now, 4 - k).year * 12 + MonthsBefore(now, 4 - k).month
    ensures var b := MonthBucket(cases, MonthsBefore(now, 5 - k));
      b.full + b.partial <= b.total <= |cases|
    ensures Count(cases, CreatedIn(MonthsBefore(now, 5 - k))) == 0 ==>
      MonthBucket(cases, MonthsBefore(now, 5 - k)) == TrendBucket(MonthNames[MonthsBefore(now, 5 - k).month], 0, 0, 0)
  {
    var ym := MonthsBefore(now, 5 - k);
    var monthCases := Filter(cases, CreatedIn(ym));
    CountDisjoint(monthCases, InclusionIs(InclusionFull), InclusionIs(InclusionPartial));
    assert (now.year * 12 + now.month) / 12 == now.year;
  }

  /* ---------------------------------------------------------------- coverage */

  datatype CoverageRow = CoverageRow(
    governorateId: string,
    governorateName: string,
    specialistsCount: nat,
    casesCount: nat,
    requiredSpecialists: nat,
    coveragePercentTenths: int)

  function IsSpecialist(u: User): bool {
    u.role == RoleSpecialist
  }

  function UserInGovernorate(id: string): User -> bool {
    (u: User) => u.governorateId == id
  }

  /**
   * One coverage row: `required = max(1, ceil(cases / targetRatio))` specialists, and the
   * specialists present as a share of that, clamped to [0, 999] percent.
   */
  function CoverageFor(g: Governorate, cases: seq<Case>, specialists: seq<User>, targetRatio: int): (r: CoverageRow)
    requires targetRatio > 0
    ensures r.governorateId == g.id && r.governorateName == g.name
    ensures r.casesCount == Count(cases, GovernorateIs(g.id))
    ensures r.specialistsCount == Count(specialists, UserInGovernorate(g.id))
    ensures r.requiredSpecialists >= 1
    ensures r.requiredSpecialists * targetRatio >= r.casesCount
    ensures r.requiredSpecialists == 1 || (r.requiredSpecialists - 1) * targetRatio < r.casesCount
    ensures 0 <= r.coveragePercentTenths <= 9990
    ensures r.coveragePercentTenths == Min(PercentTenths(r.specialistsCount, r.requiredSpecialists), 9990)
    ensures r.specialistsCount <= r.requiredSpecialists ==>
      r.coveragePercentTenths == PercentTenths(r.specialistsCount, r.requiredSpecialists)
  {
    var specCount := Count(specialists, UserInGovernorate(g.id));
    var casesCount := Count(cases, GovernorateIs(g.id));
    var required := Max(1, CeilDiv(casesCount, targetRatio));
    assert specCount <= required ==> 0 <= PercentTenths(specCount, required) <= 1000 by {
      if specCount <= required {
        PercentTenthsBounds(specCount, required);
      }
    }
    CoverageRow(g.id, g.name, specCount, casesCount, required,
      Clamp(PercentTenths(specCount, required), 0, 9990))
  }

  /** `computeSpecialistsCoverageByGovernorate`: one row per governorate, in enumeration order. */
  function ComputeCoverage(cases: seq<Case>, users: seq<User>, targetRatio: int): (rows: seq<CoverageRow>)
    requires targetRatio > 0
    ensures |rows| == |Governorates|
    ensures forall i :: 0 <= i < |rows| ==>
      rows[i] == CoverageFor(Governorates[i], cases, Filter(users, IsSpecialist), targetRatio)
  {
    var specialists := Filter(users, IsSpecialist);
    seq(|Governorates|, i requires 0 <= i < |Governorates| => CoverageFor(Governorates[i], cases, specialists, targetRatio))
  }

  /* ---------------------------------------------------------------- axis scores */

  /** `(audit?.professionalAxesNotes?.[axisKey] || '').trim()`. */
  function AxisNote(audit: Audit, axisKey: string): string {
    Trim(NoteFor(audit.axisNotes, axisKey))
  }

  /** `note ? 72 + Math.min(22, Math.round(note.length / 8)) : 65`, the length in UTF-16 code units. */
  function NoteBase(note: string): (b: int)
    ensures note == "" ==> b == 65
    ensures note != "" ==> 72 <= b <= 94
  {
    if note == "" then 65 else 72 + Min(22, RoundDiv(Utf16Length(note), 8))
  }

  /** The seed text `${caseId}|${axisKey}|${note.length}`. */
  function AuditSeed(caseId: string, axisKey: string, note: string): string {
    caseId + "|" + axisKey + "|" + NatToString(Utf16Length(note))
  }

  /**
   * `axisScoreFromAudit`: the note's base plus the jitter of the first draw of a generator seeded
   * with the hash of the seed text. The jitter lies in [-6, 6], so the score lies within 6 of the
   * base and the clamp to [0, 100] never changes it.
   */
  function AxisScoreFromAudit(audit: Audit, caseId: string, axisKey: string): (r: int)
    ensures 59 <= r <= 100
    ensures NoteBase(AxisNote(audit, axisKey)) - 6 <= r <= NoteBase(AxisNote(audit, axisKey)) + 6
    ensures AxisNote(audit, axisKey) == "" ==> r <= 71
  {
    var note := AxisNote(audit, axisKey);
    var n := Draw(Fnv1a(Utf16(AuditSeed(caseId, axisKey, note))), 0);
    JitterBounds(n, 12);
    Clamp(NoteBase(note) + Jitter(n, 12), 0, 100)
  }

  /** The seed text `${g.id}|${ax.key}|fallback|${cases.length}`. */
  function FallbackSeed(g: Governorate, axisKey: string, caseCount: nat): string {
    g.id + "|" + axisKey + "|fallback|" + NatToString(caseCount)
  }

  /** The value of an axis in a governorate without audited cases: `clamp(70 + jitter)`, the jitter over a range of 10. */
  function FallbackAxisValue(g: Governorate, axisKey: string, caseCount: nat): (r: int)
    ensures 65 <= r <= 75
  {
    var n := Draw(Fnv1a(Utf16(FallbackSeed(g, axisKey, caseCount))), 0);
    JitterBounds(n, 10);
    Clamp(70 + Jitter(n, 10), 0, 100)
  }

  /** A case paired with its audit (`{ c, a }`). */
  datatype ScoredCase = ScoredCase(c: Case, a: Audit)

  /** `cases.map((c) => ({ c, a: auditsByCaseId.get(c.id) })).filter((x) => Boolean(x.a))`. */
  function Scored(cases: seq<Case>, audits: seq<Audit>): (r: seq<ScoredCase>)
    ensures |r| <= |cases|
    ensures forall i :: 0 <= i < |r| ==> r[i].c in cases && LastAuditFor(audits, r[i].c.id) == Some(r[i].a)
    ensures r == [] <==> forall i :: 0 <= i < |cases| ==> LastAuditFor(audits, cases[i].id).None?
  {
    if cases == [] then []
    else
      var rest := Scored(cases[1..], audits);
      assert forall i :: 0 <= i < |cases[1..]| ==> cases[1..][i] == cases[i + 1];
      match LastAuditFor(audits, cases[0].id)
      case None => rest
      case Some(a) => [ScoredCase(cases[0], a)] + rest
  }

  function ScoredCases(r: seq<ScoredCase>): (cs: seq<Case>)
    ensures |cs| == |r| && forall i :: 0 <= i < |r| ==> cs[i] == r[i].c
  {
    seq(|r|, i requires 0 <= i < |r| => r[i].c)
  }

  /** The scored cases are exactly the cases that have an audit, in the order of the input. */
  lemma {:induction false} ScoredKeepsOrder(cases: seq<Case>, audits: seq<Audit>)
    ensures ScoredCases(Scored(cases, audits)) == Filter(cases, HasAudit(audits))
  {
    if cases != [] {
      ScoredKeepsOrder(cases[1..], audits);
      var rest := Scored(cases[1..], audits);
      var c := cases[0];
      if HasAudit(audits)(c) {
        var head := [ScoredCase(c, LastAuditFor(audits, c.id).value)];
        assert Scored(cases, audits) == head + rest;
        assert ScoredCases(head + rest) == [c] + ScoredCases(rest);
      } else {
        assert Scored(cases, audits) == rest;
      }
    }
  }

  datatype AxisValue = AxisValue(key: string, name: string, value: int)

  function AxisScores(scored: seq<ScoredCase>, axisKey: string): (r: seq<int>)
    ensures |r| == |scored|
    ensures forall i :: 0 <= i < |r| ==> 59 <= r[i] <= 100
  {
    seq(|scored|, i requires 0 <= i < |scored| => AxisScoreFromAudit(scored[i].a, scored[i].c.id, axisKey))
  }

  /**
   * One axis of one governorate: the fallback value when no case is audited, otherwise the rounded
   * mean of the audit scores, clamped to [0, 100].
   */
  function AxisValueFor(g: Governorate, caseCount: nat, scored: seq<ScoredCase>, ax: Axis): (v: AxisValue)
    ensures v.key == ax.key && v.name == ax.title
    ensures scored == [] ==> v.value == FallbackAxisValue(g, ax.key, caseCount)
    ensures scored != [] ==> 59 <= v.value <= 100
    ensures scored != [] ==> v.value == RoundDiv(Sum(AxisScores(scored, ax.key)), |scored|)
    ensures 0 <= v.value <= 100
  {
    if scored == [] then AxisValue(ax.key, ax.title, FallbackAxisValue(g, ax.key, caseCount))
    else
      var scores := AxisScores(scored, ax.key);
      SumBounds(scores, 59, 100);
      RoundDivBounds(Sum(scores), |scored|, 59, 100);
      AxisValue(ax.key, ax.title, Clamp(RoundDiv(Sum(scores), |scored|), 0, 100))
  }

  datatype GovernorateAxes = GovernorateAxes(
    governorateId: string,
    governorateName: string,
    axes: seq<AxisValue>,
    overall: int)

  function AxisValues(values: seq<AxisValue>): (r: seq<int>)
    ensures |r| == |values|
    ensures forall i :: 0 <= i < |r| ==> r[i] == values[i].value
  {
    seq(|values|, i requires 0 <= i < |values| => values[i].value)
  }

  /** The averages of one governorate: one value per axis, in axis order, and their rounded mean as `overall`. */
  function GovernorateAverages(g: Governorate, filteredCases: seq<Case>, audits: seq<Audit>, axes: seq<Axis>): (r: GovernorateAxes)
    ensures r.governorateId == g.id && r.governorateName == g.name
    ensures |r.axes| == |axes|
    ensures forall j :: 0 <= j < |axes| ==> r.axes[j].key == axes[j].key && 0 <= r.axes[j].value <= 100
    ensures var scored := Scored(Filter(filteredCases, GovernorateIs(g.id)), audits);
      scored != [] ==> forall j :: 0 <= j < |axes| ==>
        r.axes[j].value == RoundDiv(Sum(AxisScores(scored, axes[j].key)), |scored|)
    ensures r.overall == RoundDiv(Sum(AxisValues(r.axes)), Max(1, |axes|))
    ensures 0 <= r.overall <= 100
  {
    var cases := Filter(filteredCases, GovernorateIs(g.id));
    var scored := Scored(cases, audits);
    var values := seq(|axes|, j requires 0 <= j < |axes| => AxisValueFor(g, |cases|, scored, axes[j]));
    SumBounds(AxisValues(values), 0, 100);
    RoundDivBounds(Sum(AxisValues(values)), Max(1, |values|), 0, 100);
    GovernorateAxes(g.id, g.name, values, RoundDiv(Sum(AxisValues(values)), Max(1, |values|)))
  }

  /**
   * A governorate none of whose report cases has an audit gets, on every axis, the fallback value
   * seeded by its id, the axis key and its case count, which lies in [65, 75].
   */
  lemma UnauditedGovernorateUsesFallback(g: Governorate, filteredCases: seq<Case>, audits: seq<Audit>, axes: seq<Axis>)
    requires forall i :: 0 <= i < |filteredCases| && filteredCases[i].governorateId == g.id ==>
      LastAuditFor(audits, filteredCases[i].id).None?
    ensures forall j :: 0 <= j < |axes| ==>
      GovernorateAverages(g, filteredCases, audits, axes).axes[j].value
        == FallbackAxisValue(g, axes[j].key, Count(filteredCases, GovernorateIs(g.id)))
    ensures forall j :: 0 <= j < |axes| ==> 65 <= GovernorateAverages(g, filteredCases, audits, axes).axes[j].value <= 75
  {
    var cases := Filter(filteredCases, GovernorateIs(g.id));
    forall i | 0 <= i < |cases| ensures LastAuditFor(audits, cases[i].id).None? {
      assert GovernorateIs(g.id)(cases[i]);
      var m :| 0 <= m < |filteredCases| && filteredCases[m] == cases[i];
    }
    assert Scored(cases, audits) == [];
  }

  /** `computeGovernorateAxisAverages`: one row per governorate, in enumeration order. */
  function ComputeGovernorateAxisAverages(filteredCases: seq<Case>, audits: seq<Audit>, axes: seq<Axis>): (rows: seq<GovernorateAxes>)
    ensures |rows| == |Governorates|
    ensures forall i :: 0 <= i < |rows| ==> rows[i] == GovernorateAverages(Governorates[i], filteredCases, audits, axes)
  {
    seq(|Governorates|, i requires 0 <= i < |Governorates| => GovernorateAverages(Governorates[i], filteredCases, audits, axes))
  }

  /* ---------------------------------------------------------------- ranking */

  /** The sort key of `(a, b) => b.overall - a.overall`: highest overall first. */
  function HighestOverallFirst(g: GovernorateAxes): seq<int> {
    [-g.overall]
  }

  /** `[...governorateAxisAverages].sort(...)`: a stable sort of a copy. */
  function Rank(averages: seq<GovernorateAxes>): seq<GovernorateAxes> {
    SortByKey(averages, HighestOverallFirst)
  }

  /** The ranking is a permutation of the averages, non-increasing in overall, ties in governorate order. */
  lemma RankCorrect(averages: seq<GovernorateAxes>)
    ensures multiset(Rank(averages)) == multiset(averages)
    ensures forall i, j :: 0 <= i < j < |Rank(averages)| ==> Rank(averages)[i].overall >= Rank(averages)[j].overall
    ensures forall k :: WithKey(Rank(averages), HighestOverallFirst, k) == WithKey(averages, HighestOverallFirst, k)
  {
    SortByKeyCorrect(averages, HighestOverallFirst);
    var r := Rank(averages);
    forall i, j | 0 <= i < j < |r| ensures r[i].overall >= r[j].overall {
      assert !LexLess(HighestOverallFirst(r[j]), HighestOverallFirst(r[i]));
      LexLessSingle(-r[j].overall, -r[i].overall);
    }
  }

  /** `ranking[0] || null`. */
  function Best(ranking: seq<GovernorateAxes>): Option<GovernorateAxes> {
    if ranking == [] then None else Some(ranking[0])
  }

  /** `ranking[ranking.length - 1] || null`. */
  function Worst(ranking: seq<GovernorateAxes>): Option<GovernorateAxes> {
    if ranking == [] then None else Some(ranking[|ranking| - 1])
  }

  /** Best and worst are absent only when there are no governorates. */
  lemma BestAndWorstPresent(averages: seq<GovernorateAxes>)
    ensures Best(Rank(averages)).None? <==> averages == []
    ensures Worst(Rank(averages)).None? <==> averages == []
  {
  }

  /** Best is the first governorate, in enumeration order, with the highest overall. */
  lemma BestIsFirstHighest(averages: seq<GovernorateAxes>)
    requires averages != []
    ensures exists j ::
      && 0 <= j < |averages| && Best(Rank(averages)) == Some(averages[j])
      && (forall i :: 0 <= i < |averages| ==> averages[i].overall <= averages[j].overall)
      && (forall i :: 0 <= i < j ==> averages[i].overall != averages[j].overall)
  {
    var r := Rank(averages);
    var j := SortedHeadIsFirstMinimum(averages, HighestOverallFirst);
    forall i | 0 <= i < |averages| ensures averages[i].overall <= averages[j].overall {
      LexLessSingle(-averages[i].overall, -averages[j].overall);
    }
    forall i | 0 <= i < j ensures averages[i].overall != averages[j].overall {
      assert HighestOverallFirst(averages[i]) != HighestOverallFirst(averages[j]);
    }
  }

  /** Worst is one of the governorates, and has the lowest overall. */
  lemma WorstIsLowest(averages: seq<GovernorateAxes>)
    requires averages != []
    ensures Worst(Rank(averages)).value in averages
    ensures forall i :: 0 <= i < |averages| ==> Worst(Rank(averages)).value.overall <= averages[i].overall
  {
    var r := Rank(averages);
    RankCorrect(averages);
    assert r[|r| - 1] in multiset(averages);
    forall i | 0 <= i < |averages| ensures r[|r| - 1].overall <= averages[i].overall {
      assert averages[i] in multiset(r);
      var m :| 0 <= m < |r| && r[m] == averages[i];
    }
  }

  /* ---------------------------------------------------------------- problematic axis */

  datatype AxisMean = AxisMean(index: nat, name: string, value: int)

  /** `g.axes[idx]?.value || 0`. */
  function AxisValueAt(g: GovernorateAxes, idx: nat): int {
    if idx < |g.axes| then g.axes[idx].value else 0
  }

  /** The first governorate's name for axis `idx`, or `Axis_` followed by `idx + 1` when it has none. */
  function AxisName(first: GovernorateAxes, idx: nat): string {
    if idx < |first.axes| && first.axes[idx].name != "" then first.axes[idx].name
    else "Axis_" + NatToString(idx + 1)
  }

  /** The rounded mean of axis `idx` over all governorates. */
  function AxisMeanValue(stats: seq<GovernorateAxes>, idx: nat): int {
    RoundDiv(Sum(seq(|stats|, gi requires 0 <= gi < |stats| => AxisValueAt(stats[gi], idx))), Max(1, |stats|))
  }

  /** One mean per axis of the first governorate, each carrying its index. */
  function AxisMeans(stats: seq<GovernorateAxes>): (r: seq<AxisMean>)
    requires stats != []
    ensures |r| == |stats[0].axes|
    ensures forall i :: 0 <= i < |r| ==> r[i] == AxisMean(i, AxisName(stats[0], i), AxisMeanValue(stats, i))
  {
    seq(|stats[0].axes|, idx requires 0 <= idx < |stats[0].axes| => AxisMean(idx, AxisName(stats[0], idx), AxisMeanValue(stats, idx)))
  }

  /** The sort key of `(a, b) => a.value - b.value`: lowest mean first. */
  function LowestValueFirst(m: AxisMean): seq<int> {
    [m.value]
  }

  /** `computeProblematicAxis`: the head of the axis means sorted ascending, or none. */
  function ProblematicAxis(stats: seq<GovernorateAxes>): Option<AxisMean> {
    if stats == [] then None
    else
      var means := AxisMeans(stats);
      if means == [] then None else Some(SortByKey(means, LowestValueFirst)[0])
  }

  /**
   * The problematic axis is absent exactly when there are no governorates or no axes; otherwise it
   * is the axis with the lowest mean, the lowest index among equal means.
   */
  lemma ProblematicAxisCorrect(stats: seq<GovernorateAxes>)
    ensures ProblematicAxis(stats).None? <==> stats == [] || stats[0].axes == []
    ensures ProblematicAxis(stats).Some? ==>
      var m := ProblematicAxis(stats).value;
      var means := AxisMeans(stats);
      && m.index < |means| && means[m.index] == m
      && (forall j :: 0 <= j < |means| ==> m.value <= means[j].value)
      && (forall j :: 0 <= j < m.index ==> means[j].value > m.value)
  {
    if stats != [] && stats[0].axes != [] {
      var means := AxisMeans(stats);
      var j := SortedHeadIsFirstMinimum(means, LowestValueFirst);
      var m := means[j];
      assert m.index == j;
      forall i | 0 <= i < |means| ensures m.value <= means[i].value {
        LexLessSingle(means[i].value, m.value);
      }
      forall i | 0 <= i < j ensures means[i].value > m.value {
        assert LowestValueFirst(means[i]) != LowestValueFirst(means[j]);
        LexLessSingle(means[i].value, m.value);
      }
    }
  }

  /* ---------------------------------------------------------------- the report */

  datatype Totals = Totals(totalCases: nat, completedCases: nat, incompleteCases: nat)

  datatype ReportData = ReportData(
    filters: ReportFilters,
    totals: Totals,
    gender: GenderStats,
    educationStructure: EducationStructure,
    educationPrograms: seq<Share>,
    referralSources: seq<Share>,
    inclusionTrends: seq<TrendBucket>,
    specialistsCoverage: seq<CoverageRow>,
    governorateAxisAverages: seq<GovernorateAxes>,
    governorateRanking: seq<GovernorateAxes>,
    bestGovernorate: Option<GovernorateAxes>,
    worstGovernorate: Option<GovernorateAxes>,
    problematicAxis: Option<AxisMean>)

  function StatusIs(status: string): Case -> bool {
    (c: Case) => c.status == status
  }

  /** The specialists-per-case target of the coverage section. */
  const TargetRatio: int := 50

  /**
   * Whatever the cases and audits, the ranking has one entry per governorate, so best and worst
   * are present, and the problematic axis is present because there are seven axes.
   */
  lemma RankingAlwaysComplete(filtered: seq<Case>, audits: seq<Audit>)
    ensures var averages := ComputeGovernorateAxisAverages(filtered, audits, ProfessionalAxes);
      && |Rank(averages)| == |Governorates|
      && Best(Rank(averages)).Some? && Worst(Rank(averages)).Some?
      && ProblematicAxis(averages).Some?
  {
    var averages := ComputeGovernorateAxisAverages(filtered, audits, ProfessionalAxes);
    assert |averages[0].axes| == |ProfessionalAxes| == 7;
    ProblematicAxisCorrect(averages);
  }

  /** No case is both completed and incomplete, so the two totals never exceed the case total. */
  lemma TotalsBound(cases: seq<Case>)
    ensures Count(cases, StatusIs(StatusCompleted)) + Count(cases, StatusIs(StatusIncomplete)) <= |cases|
  {
    CountDisjoint(cases, StatusIs(StatusCompleted), StatusIs(StatusIncomplete));
  }

  /**
   * The report built from the filtered cases and the four sections the builder computes with
   * loops; the remaining sections are computed here.
   */
  function Assemble(
    filters: ReportFilters, filtered: seq<Case>, allUsers: seq<User>, structure: EducationStructure,
    programs: seq<Share>, referrals: seq<Share>, trends: seq<TrendBucket>, averages: seq<GovernorateAxes>): ReportData
  {
    var ranking := Rank(averages);
    ReportData(
      filters,
      Totals(|filtered|, Count(filtered, StatusIs(StatusCompleted)), Count(filtered, StatusIs(StatusIncomplete))),
      ComputeGenderStats(filtered),
      structure,
      programs,
      referrals,
      trends,
      ComputeCoverage(filtered, allUsers, TargetRatio),
      averages,
      ranking,
      Best(ranking),
      Worst(ranking),
      ProblematicAxis(averages))
  }

  /** The report the builder assembles, section by section, from the filtered cases. */
  function PeriodicMalaaReportData(
    allCases: seq<Case>, allAudits: seq<Audit>, allUsers: seq<User>, filters: ReportFilters,
    educationPrograms: seq<string>, now: Instant): ReportData
  {
    var filtered := FilterCasesForReport(allCases, filters);
    Assemble(
      filters, filtered, allUsers,
      EducationStructureOf(filtered),
      DistributionRows(filtered, educationPrograms, EducationProgram),
      DistributionRows(filtered, ReferralSources, ReferralSource),
      InclusionTrends(filtered, now),
      ComputeGovernorateAxisAverages(filtered, allAudits, ProfessionalAxes))
  }

  /**
   * The report's fixed shape: the completed and incomplete totals never exceed the total, there
   * are six trend buckets, one coverage row and one ranking entry per governorate, one row per
   * listed program and referral source, and best, worst and problematic axis are always present.
   */
  lemma ReportShape(
    allCases: seq<Case>, allAudits: seq<Audit>, allUsers: seq<User>, filters: ReportFilters,
    educationPrograms: seq<string>, now: Instant)
    ensures var report := PeriodicMalaaReportData(allCases, allAudits, allUsers, filters, educationPrograms, now);
      && report.totals.completedCases + report.totals.incompleteCases <= report.totals.totalCases
      && |report.inclusionTrends| == 6
      && |report.educationPrograms| == |educationPrograms|
      && |report.referralSources| == |ReferralSources|
      && |report.specialistsCoverage| == |report.governorateRanking| == |Governorates|
      && report.bestGovernorate.Some? && report.worstGovernorate.Some? && report.problematicAxis.Some?
  {
    var filtered := FilterCasesForReport(allCases, filters);
    TotalsBound(filtered);
    RankingAlwaysComplete(filtered, allAudits);
  }

  /**
   * `buildPeriodicMalaaReportData`: every section is computed from the filtered cases. The list
   * of education programs and the current moment are parameters.
   */
  method BuildPeriodicMalaaReportData(
    allCases: seq<Case>, allAudits: seq<Audit>, allUsers: seq<User>, filters: ReportFilters,
    educationPrograms: seq<string>, now: Instant)
    returns (report: ReportData)
    requires Distinct(educationPrograms)
    ensures report == PeriodicMalaaReportData(allCases, allAudits, allUsers, filters, educationPrograms, now)
  {
    var filtered := FilterCasesForReport(allCases, filters);
    var structure := ComputeEducationStructure(filtered);
    var programs := ComputeDistribution(filtered, educationPrograms, EducationProgram);
    ReferralSourcesDistinct();
    var referrals := ComputeDistribution(filtered, ReferralSources, ReferralSource);
    var trends := ComputeInclusionTrends(filtered, now);
    var averages := ComputeGovernorateAxisAverages(filtered, allAudits, ProfessionalAxes);
    report := Assemble(filters, filtered, allUsers, structure, programs, referrals, trends, averages);
  }
}
