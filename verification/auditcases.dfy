/**
 * The audit-case list of `src/pages/portal/supervisor/AuditCases.jsx`: the labels and ranks of
 * review and evaluation statuses, the chain of list filters, the two orderings (one for the
 * section head, one for everyone else), and the reviewer options offered to a section head.
 *
 * Whether the signed-in user is a specialist or the section head is a parameter (`Viewer`).
 */
module AuditCaseList {
  import opened Wrappers
  import opened Lists
  import opened Sorting
  import opened Records
  import PeriodicReport

  /** `order.indexOf(x)`: the first position of `x`, or -1. */
  function IndexOf(order: seq<string>, x: string): (r: int)
    ensures -1 <= r < |order|
    ensures r == -1 <==> x !in order
    ensures r >= 0 ==> order[r] == x && forall j :: 0 <= j < r ==> order[j] != x
  {
    if order == [] then -1
    else if order[0] == x then 0
    else
      var k := IndexOf(order[1..], x);
      if k == -1 then -1 else k + 1
  }

  const NoReviewStatus: string := "غير محددة"
  const NeedsFollowUp: string := "تحتاج متابعة"
  const InReview: string := "قيد المراجعة"
  const ReviewDone: string := "مكتملة"

  const NotEvaluated: string := "غير مقيم"
  const EvaluationPending: string := "قيد التقييم"
  const EvaluationDone: string := "مكتمل"

  const ReviewOrder: seq<string> := [NoReviewStatus, NeedsFollowUp, InReview, ReviewDone]
  const ReviewOrderSectionHead: seq<string> := [ReviewDone, NeedsFollowUp, InReview, NoReviewStatus]
  const EvalOrder: seq<string> := [NotEvaluated, EvaluationPending, EvaluationDone]

  /** `reviewStatusOrder`: the label's position in the list, unknown labels last (4). */
  function ReviewStatusOrder(status: string): (r: int)
    ensures 0 <= r <= 4
    ensures r < 4 <==> status in ReviewOrder
    ensures r < 4 ==> ReviewOrder[r] == status
  {
    var idx := IndexOf(ReviewOrder, status);
    if idx == -1 then |ReviewOrder| else idx
  }

  /** `reviewStatusOrderSectionHead`: the label's position, unknown labels first (-1). */
  function ReviewStatusOrderSectionHead(status: string): (r: int)
    ensures -1 <= r <= 3
    ensures r >= 0 <==> status in ReviewOrderSectionHead
    ensures r >= 0 ==> ReviewOrderSectionHead[r] == status
  {
    IndexOf(ReviewOrderSectionHead, status)
  }

  /** `reviewerEvalOrder`: the label's position, unknown labels last (3). */
  function ReviewerEvalOrder(status: string): (r: int)
    ensures 0 <= r <= 3
    ensures r < 3 <==> status in EvalOrder
    ensures r < 3 ==> EvalOrder[r] == status
  {
    var idx := IndexOf(EvalOrder, status);
    if idx == -1 then |EvalOrder| else idx
  }

  /** All four ratings of the section head are given. */
  predicate HasAllRatings(rp: ReviewerPerformance) {
    rp.adherence != "" && rp.notesQuality != "" && rp.timeliness != "" && rp.professionalism != ""
  }

  /** `reviewerEvalStatusLabel(audit)`. */
  function ReviewerEvalStatusLabel(audit: Option<Audit>): string {
    if audit.None? || audit.value.reviewerPerformance.None? then NotEvaluated
    else if HasAllRatings(audit.value.reviewerPerformance.value) then EvaluationDone
    else EvaluationPending
  }

  /**
   * The evaluation label always ranks among the three known labels: not evaluated (no audit or no
   * ratings record) first, then partly rated, then fully rated.
   */
  lemma EvalLabelRank(audit: Option<Audit>)
    ensures audit.None? || audit.value.reviewerPerformance.None? ==>
      ReviewerEvalOrder(ReviewerEvalStatusLabel(audit)) == 0
    ensures audit.Some? && audit.value.reviewerPerformance.Some? ==>
      ReviewerEvalOrder(ReviewerEvalStatusLabel(audit))
        == (if HasAllRatings(audit.value.reviewerPerformance.value) then 2 else 1)
  {
    assert EvalOrder[0] == NotEvaluated && EvalOrder[1] == EvaluationPending && EvalOrder[2] == EvaluationDone;
  }

  /** `audit?.reviewStatus || 'غير محددة'`. */
  function ReviewLabel(audit: Option<Audit>): string {
    if audit.Some? && audit.value.reviewStatus != "" then audit.value.reviewStatus else NoReviewStatus
  }

  /** The signed-in user as the list sees them. */
  datatype Viewer = Viewer(isSpecialist: bool, isSectionHead: bool, governorateId: string)

  /** The list filters; an empty text or a `NoDate` bound is unset. */
  datatype CaseListFilters = CaseListFilters(
    specialistId: string,
    governorateId: string,
    status: string,
    fromDate: DateStr,
    toDate: DateStr,
    centralReviewerId: string,
    reviewerEvalStatus: string)

  /** `specialists.find((s) => s.id === id)?.governorateId`, when truthy. */
  function SpecialistGovernorate(users: seq<User>, id: string): (r: Option<string>)
    ensures r.Some? ==>
      r.value != "" &&
      exists i :: 0 <= i < |users| && users[i].role == RoleSpecialist && users[i].id == id && users[i].governorateId == r.value
    ensures (forall i :: 0 <= i < |users| ==> !(users[i].role == RoleSpecialist && users[i].id == id)) ==> r.None?
  {
    if users == [] then None
    else if users[0].role == RoleSpecialist && users[0].id == id then
      (if users[0].governorateId != "" then Some(users[0].governorateId) else None)
    else
      var r := SpecialistGovernorate(users[1..], id);
      assert r.Some? ==>
        exists i :: 0 <= i < |users| && users[i].role == RoleSpecialist && users[i].id == id && users[i].governorateId == r.value
      by {
        if r.Some? {
          var i :| 0 <= i < |users[1..]| && users[1..][i].role == RoleSpecialist && users[1..][i].id == id
            && users[1..][i].governorateId == r.value;
          assert users[i + 1] == users[1..][i];
        }
      }
      r
  }

  function InGovernorate(id: string): Case -> bool {
    (c: Case) => c.governorateId == id
  }

  function StatusIs(status: string): Case -> bool {
    (c: Case) => c.status == status
  }

  function CreatedWithin(from: DateStr, to: DateStr): Case -> bool {
    (c: Case) => PeriodicReport.IsWithinRange(c.createdAt, from, to)
  }

  function ReviewedBy(audits: seq<Audit>, reviewerId: string): Case -> bool {
    (c: Case) => LastAuditFor(audits, c.id).Some? && LastAuditFor(audits, c.id).value.centralReviewerUserId == Some(reviewerId)
  }

  function EvalStatusIs(audits: seq<Audit>, status: string): Case -> bool {
    (c: Case) => ReviewerEvalStatusLabel(LastAuditFor(audits, c.id)) == status
  }

  /** The first three passes of `filteredCases`: the governorate scope (own, selected, the selected specialist's). */
  function ScopedCases(cases: seq<Case>, users: seq<User>, viewer: Viewer, f: CaseListFilters): seq<Case> {
    var s1 := if viewer.isSpecialist && viewer.governorateId != "" then Filter(cases, InGovernorate(viewer.governorateId)) else cases;
    var s2 := if f.governorateId != "" then Filter(s1, InGovernorate(f.governorateId)) else s1;
    if f.specialistId == "" then s2
    else match SpecialistGovernorate(users, f.specialistId)
      case Some(g) => Filter(s2, InGovernorate(g))
      case None => []
  }

  /** The status and creation-date passes, each only when active. */
  function DataPasses(s: seq<Case>, f: CaseListFilters): seq<Case> {
    var s4 := if f.status != "" then Filter(s, StatusIs(f.status)) else s;
    if f.fromDate.IsSet() || f.toDate.IsSet() then Filter(s4, CreatedWithin(f.fromDate, f.toDate)) else s4
  }

  /** The section head's passes: central reviewer, then evaluation status, each only when active. */
  function ReviewPasses(s: seq<Case>, audits: seq<Audit>, viewer: Viewer, f: CaseListFilters): seq<Case> {
    var s6 := if f.centralReviewerId != "" && viewer.isSectionHead then Filter(s, ReviewedBy(audits, f.centralReviewerId)) else s;
    if viewer.isSectionHead && f.reviewerEvalStatus != "" then Filter(s6, EvalStatusIs(audits, f.reviewerEvalStatus)) else s6
  }

  /** The filter passes of `filteredCases`, in source order. */
  function SelectListCases(cases: seq<Case>, audits: seq<Audit>, users: seq<User>, viewer: Viewer, f: CaseListFilters): seq<Case> {
    ReviewPasses(DataPasses(ScopedCases(cases, users, viewer, f), f), audits, viewer, f)
  }

  /** A case lies in the governorate scope of the viewer and the filters. */
  predicate InScope(c: Case, users: seq<User>, viewer: Viewer, f: CaseListFilters) {
    (viewer.isSpecialist && viewer.governorateId != "" ==> c.governorateId == viewer.governorateId)
    && (f.governorateId != "" ==> c.governorateId == f.governorateId)
    && (f.specialistId != "" ==>
          SpecialistGovernorate(users, f.specialistId).Some? && c.governorateId == SpecialistGovernorate(users, f.specialistId).value)
  }

  /** A case passes the status and date filters that are active. */
  predicate PassesData(c: Case, f: CaseListFilters) {
    (f.status != "" ==> c.status == f.status)
    && (f.fromDate.IsSet() || f.toDate.IsSet() ==> PeriodicReport.IsWithinRange(c.createdAt, f.fromDate, f.toDate))
  }

  /** A case passes the reviewer and evaluation filters that are active. */
  predicate PassesReview(c: Case, audits: seq<Audit>, viewer: Viewer, f: CaseListFilters) {
    (f.centralReviewerId != "" && viewer.isSectionHead ==> ReviewedBy(audits, f.centralReviewerId)(c))
    && (viewer.isSectionHead && f.reviewerEvalStatus != "" ==> EvalStatusIs(audits, f.reviewerEvalStatus)(c))
  }

  /** A case passes every active list filter. */
  predicate MatchesList(c: Case, audits: seq<Audit>, users: seq<User>, viewer: Viewer, f: CaseListFilters) {
    InScope(c, users, viewer, f) && PassesData(c, f) && PassesReview(c, audits, viewer, f)
  }

  function ScopeCriteria(users: seq<User>, viewer: Viewer, f: CaseListFilters): Case -> bool {
    (c: Case) => InScope(c, users, viewer, f)
  }

  function DataCriteria(f: CaseListFilters): Case -> bool {
    (c: Case) => PassesData(c, f)
  }

  function ReviewCriteria(audits: seq<Audit>, viewer: Viewer, f: CaseListFilters): Case -> bool {
    (c: Case) => PassesReview(c, audits, viewer, f)
  }

  function ScopeAndData(users: seq<User>, viewer: Viewer, f: CaseListFilters): Case -> bool {
    (c: Case) => InScope(c, users, viewer, f) && PassesData(c, f)
  }

  function ListCriteria(audits: seq<Audit>, users: seq<User>, viewer: Viewer, f: CaseListFilters): Case -> bool {
    (c: Case) => MatchesList(c, audits, users, viewer, f)
  }

  /** One pass of the chain, as a filter by "inactive or satisfied". */
  lemma PassAsFilter(s: seq<Case>, active: bool, p: Case -> bool, q: Case -> bool)
    requires forall c :: q(c) == (active ==> p(c))
    ensures (if active then Filter(s, p) else s) == Filter(s, q)
  {
    if active {
      FilterExt(s, p, q);
    } else {
      FilterAll(s, q);
    }
  }

  /** The viewer's own governorate pass, as a criterion that every case meets when it is inactive. */
  function ViewerScope(viewer: Viewer): Case -> bool {
    (c: Case) => viewer.isSpecialist && viewer.governorateId != "" ==> c.governorateId == viewer.governorateId
  }

  /** The governorate filter's pass, likewise. */
  function GovernorateScope(f: CaseListFilters): Case -> bool {
    (c: Case) => f.governorateId != "" ==> c.governorateId == f.governorateId
  }

  /** The first two scope passes together. */
  function ViewerAndGovernorateScope(viewer: Viewer, f: CaseListFilters): Case -> bool {
    (c: Case) => ViewerScope(viewer)(c) && GovernorateScope(f)(c)
  }

  /** The specialist filter's pass, likewise. */
  function SpecialistScope(users: seq<User>, f: CaseListFilters): Case -> bool {
    (c: Case) => f.specialistId != "" ==>
      SpecialistGovernorate(users, f.specialistId).Some? && c.governorateId == SpecialistGovernorate(users, f.specialistId).value
  }

  /** The scope passes keep exactly the cases in scope, in input order. */
  lemma ScopedCasesIsFilter(cases: seq<Case>, users: seq<User>, viewer: Viewer, f: CaseListFilters)
    ensures ScopedCases(cases, users, viewer, f) == Filter(cases, ScopeCriteria(users, viewer, f))
  {
    var c12, q3 := ViewerAndGovernorateScope(viewer, f), SpecialistScope(users, f);
    var s1 := if viewer.isSpecialist && viewer.governorateId != "" then Filter(cases, InGovernorate(viewer.governorateId)) else cases;
    PassAsFilter(cases, viewer.isSpecialist && viewer.governorateId != "", InGovernorate(viewer.governorateId), ViewerScope(viewer));
    var s2 := if f.governorateId != "" then Filter(s1, InGovernorate(f.governorateId)) else s1;
    PassAsFilter(s1, f.governorateId != "", InGovernorate(f.governorateId), GovernorateScope(f));
    FilterTwice(cases, ViewerScope(viewer), GovernorateScope(f), c12);
    var sg := SpecialistGovernorate(users, f.specialistId);
    if f.specialistId == "" {
      FilterAll(s2, q3);
    } else if sg.Some? {
      FilterExt(s2, InGovernorate(sg.value), q3);
    } else {
      FilterNone(s2, q3);
    }
    forall i | 0 <= i < |cases| ensures ScopeCriteria(users, viewer, f)(cases[i]) == (c12(cases[i]) && q3(cases[i])) {
      ScopeSplit(cases[i], users, viewer, f);
    }
    FilterTwice(cases, c12, q3, ScopeCriteria(users, viewer, f));
  }

  /** Being in scope is passing the three scope passes. */
  lemma ScopeSplit(c: Case, users: seq<User>, viewer: Viewer, f: CaseListFilters)
    ensures ScopeCriteria(users, viewer, f)(c) == (ViewerAndGovernorateScope(viewer, f)(c) && SpecialistScope(users, f)(c))
  {
    assert ViewerAndGovernorateScope(viewer, f)(c) == (ViewerScope(viewer)(c) && GovernorateScope(f)(c));
    assert ScopeCriteria(users, viewer, f)(c) == InScope(c, users, viewer, f);
  }

  /** The status and date passes keep exactly the cases passing those filters, in input order. */
  lemma DataPassesIsFilter(s: seq<Case>, f: CaseListFilters)
    ensures DataPasses(s, f) == Filter(s, DataCriteria(f))
  {
    var q4 := (c: Case) => f.status != "" ==> StatusIs(f.status)(c);
    var a5 := f.fromDate.IsSet() || f.toDate.IsSet();
    var q5 := (c: Case) => a5 ==> CreatedWithin(f.fromDate, f.toDate)(c);
    var s4 := if f.status != "" then Filter(s, StatusIs(f.status)) else s;
    PassAsFilter(s, f.status != "", StatusIs(f.status), q4);
    PassAsFilter(s4, a5, CreatedWithin(f.fromDate, f.toDate), q5);
    FilterTwice(s, q4, q5, DataCriteria(f));
  }

  /** The reviewer and evaluation passes keep exactly the cases passing those filters, in input order. */
  lemma ReviewPassesIsFilter(s: seq<Case>, audits: seq<Audit>, viewer: Viewer, f: CaseListFilters)
    ensures ReviewPasses(s, audits, viewer, f) == Filter(s, ReviewCriteria(audits, viewer, f))
  {
    var a6 := f.centralReviewerId != "" && viewer.isSectionHead;
    var q6 := (c: Case) => a6 ==> ReviewedBy(audits, f.centralReviewerId)(c);
    var a7 := viewer.isSectionHead && f.reviewerEvalStatus != "";
    var q7 := (c: Case) => a7 ==> EvalStatusIs(audits, f.reviewerEvalStatus)(c);
    var s6 := if a6 then Filter(s, ReviewedBy(audits, f.centralReviewerId)) else s;
    PassAsFilter(s, a6, ReviewedBy(audits, f.centralReviewerId), q6);
    PassAsFilter(s6, a7, EvalStatusIs(audits, f.reviewerEvalStatus), q7);
    FilterTwice(s, q6, q7, ReviewCriteria(audits, viewer, f));
  }

  /** The chain of passes ANDs its criteria: the selection is the cases passing every active filter, in input order. */
  lemma SelectListCasesIsConjunction(cases: seq<Case>, audits: seq<Audit>, users: seq<User>, viewer: Viewer, f: CaseListFilters)
    ensures SelectListCases(cases, audits, users, viewer, f) == Filter(cases, ListCriteria(audits, users, viewer, f))
  {
    var scoped := ScopedCases(cases, users, viewer, f);
    ScopedCasesIsFilter(cases, users, viewer, f);
    DataPassesIsFilter(scoped, f);
    FilterTwice(cases, ScopeCriteria(users, viewer, f), DataCriteria(f), ScopeAndData(users, viewer, f));
    ReviewPassesIsFilter(DataPasses(scoped, f), audits, viewer, f);
    FilterTwice(cases, ScopeAndData(users, viewer, f), ReviewCriteria(audits, viewer, f), ListCriteria(audits, users, viewer, f));
  }

  /** `a.createdAt ? new Date(a.createdAt).getTime() : 0`; an unparsable date also reads as 0. */
  function ListTime(c: Case): int {
    match c.createdAt
    case Date(t) => t.ms
    case _ => 0
  }

  /**
   * The comparator as a key compared lexicographically. Section head: evaluation rank, then
   * section-head review rank, then newest first. Everyone else: review rank, then completed
   * cases before the others, then newest first.
   */
  function ListOrderKey(audits: seq<Audit>, sectionHead: bool): Case -> seq<int> {
    (c: Case) =>
      var audit := LastAuditFor(audits, c.id);
      if sectionHead then
        [ReviewerEvalOrder(ReviewerEvalStatusLabel(audit)), ReviewStatusOrderSectionHead(ReviewLabel(audit)), -ListTime(c)]
      else
        [ReviewStatusOrder(ReviewLabel(audit)), if c.status == StatusCompleted then 0 else 1, -ListTime(c)]
  }

  /** `filteredCases`: the selection, stably sorted by the viewer's key. */
  function FilteredCases(cases: seq<Case>, audits: seq<Audit>, users: seq<User>, viewer: Viewer, f: CaseListFilters): seq<Case> {
    SortByKey(SelectListCases(cases, audits, users, viewer, f), ListOrderKey(audits, viewer.isSectionHead))
  }

  /**
   * The list holds exactly the cases passing every active filter (with multiplicity), ordered by
   * the viewer's key, with cases of equal key in input order.
   */
  lemma FilteredCasesCorrect(cases: seq<Case>, audits: seq<Audit>, users: seq<User>, viewer: Viewer, f: CaseListFilters)
    ensures multiset(FilteredCases(cases, audits, users, viewer, f)) == multiset(Filter(cases, ListCriteria(audits, users, viewer, f)))
    ensures SortedByKey(FilteredCases(cases, audits, users, viewer, f), ListOrderKey(audits, viewer.isSectionHead))
    ensures forall k ::
      WithKey(FilteredCases(cases, audits, users, viewer, f), ListOrderKey(audits, viewer.isSectionHead), k)
      == WithKey(Filter(cases, ListCriteria(audits, users, viewer, f)), ListOrderKey(audits, viewer.isSectionHead), k)
  {
    SelectListCasesIsConjunction(cases, audits, users, viewer, f);
    SortByKeyCorrect(SelectListCases(cases, audits, users, viewer, f), ListOrderKey(audits, viewer.isSectionHead));
  }

  /** For three-part keys, "not after" spells out as the comparator's three tie-broken comparisons. */
  lemma NotLexLessThree(a: seq<int>, b: seq<int>)
    requires |a| == 3 && |b| == 3 && !LexLess(b, a)
    ensures a[0] < b[0] || (a[0] == b[0] && (a[1] < b[1] || (a[1] == b[1] && a[2] <= b[2])))
  {
    assert b[1..][1..] == [b[2]] && a[1..][1..] == [a[2]];
    LexLessSingle(b[2], a[2]);
  }

  /**
   * The comparator, spelled out on the list: for every earlier case x and later case y, x's key
   * is not after y's. Section head: evaluation rank, then section-head review rank, then newer
   * first. Everyone else: review rank, then completed before other statuses, then newer first.
   */
  lemma FilteredCasesOrder(cases: seq<Case>, audits: seq<Audit>, users: seq<User>, viewer: Viewer, f: CaseListFilters, i: int, j: int)
    requires 0 <= i < j < |FilteredCases(cases, audits, users, viewer, f)|
    ensures var x := FilteredCases(cases, audits, users, viewer, f)[i];
      var y := FilteredCases(cases, audits, users, viewer, f)[j];
      var ax := LastAuditFor(audits, x.id);
      var ay := LastAuditFor(audits, y.id);
      if viewer.isSectionHead then
        var ex, ey := ReviewerEvalOrder(ReviewerEvalStatusLabel(ax)), ReviewerEvalOrder(ReviewerEvalStatusLabel(ay));
        var hx, hy := ReviewStatusOrderSectionHead(ReviewLabel(ax)), ReviewStatusOrderSectionHead(ReviewLabel(ay));
        ex < ey || (ex == ey && (hx < hy || (hx == hy && ListTime(x) >= ListTime(y))))
      else
        var rx, ry := ReviewStatusOrder(ReviewLabel(ax)), ReviewStatusOrder(ReviewLabel(ay));
        var cx, cy := (if x.status == StatusCompleted then 0 else 1), (if y.status == StatusCompleted then 0 else 1);
        rx < ry || (rx == ry && (cx < cy || (cx == cy && ListTime(x) >= ListTime(y))))
  {
    var r := FilteredCases(cases, audits, users, viewer, f);
    var key := ListOrderKey(audits, viewer.isSectionHead);
    SortByKeyCorrect(SelectListCases(cases, audits, users, viewer, f), key);
    assert !LexLess(key(r[j]), key(r[i]));
    NotLexLessThree(key(r[i]), key(r[j]));
  }

  /** Every listed case passes every active filter. */
  lemma FilteredCasesMatch(cases: seq<Case>, audits: seq<Audit>, users: seq<User>, viewer: Viewer, f: CaseListFilters)
    ensures forall i :: 0 <= i < |FilteredCases(cases, audits, users, viewer, f)| ==>
      MatchesList(FilteredCases(cases, audits, users, viewer, f)[i], audits, users, viewer, f)
  {
    var sel := SelectListCases(cases, audits, users, viewer, f);
    var r := FilteredCases(cases, audits, users, viewer, f);
    SelectListCasesIsConjunction(cases, audits, users, viewer, f);
    forall i | 0 <= i < |r| ensures MatchesList(r[i], audits, users, viewer, f) {
      SortByKeyMembers(sel, ListOrderKey(audits, viewer.isSectionHead), r[i]);
      FilterMembership(cases, ListCriteria(audits, users, viewer, f), r[i]);
      assert ListCriteria(audits, users, viewer, f)(r[i]);
    }
  }

  /** A specialist with a governorate sees only cases of that governorate. */
  lemma SpecialistSeesOwnGovernorate(cases: seq<Case>, audits: seq<Audit>, users: seq<User>, viewer: Viewer, f: CaseListFilters)
    requires viewer.isSpecialist && viewer.governorateId != ""
    ensures forall i :: 0 <= i < |FilteredCases(cases, audits, users, viewer, f)| ==>
      FilteredCases(cases, audits, users, viewer, f)[i].governorateId == viewer.governorateId
  {
    FilteredCasesMatch(cases, audits, users, viewer, f);
  }

  /** A selected specialist who is unknown, or has no governorate, empties the list. */
  lemma UnknownSpecialistEmptiesList(cases: seq<Case>, audits: seq<Audit>, users: seq<User>, viewer: Viewer, f: CaseListFilters)
    requires f.specialistId != "" && SpecialistGovernorate(users, f.specialistId).None?
    ensures FilteredCases(cases, audits, users, viewer, f) == []
  {
    assert ScopedCases(cases, users, viewer, f) == [];
    assert DataPasses([], f) == [];
    assert ReviewPasses([], audits, viewer, f) == [];
  }

  /** `centralReviewers`: the users whose role is supervisor. */
  function IsCentralReviewer(u: User): bool {
    u.role == RoleSupervisor
  }

  /** The reviewer ids of the audits of cases in governorate `g` (`null` ids included, as `None`). */
  function ReviewerIdsIn(cases: seq<Case>, audits: seq<Audit>, g: string): set<Option<string>> {
    var caseIds := set i | 0 <= i < |cases| && cases[i].governorateId == g :: cases[i].id;
    set i | 0 <= i < |audits| && audits[i].caseId in caseIds :: audits[i].centralReviewerUserId
  }

  function ReviewerIn(ids: set<Option<string>>): User -> bool {
    (u: User) => Some(u.id) in ids
  }

  /** `reviewerOptionsFiltered`. */
  function ReviewerOptionsFiltered(cases: seq<Case>, audits: seq<Audit>, users: seq<User>, viewer: Viewer, specialistId: string): seq<User> {
    var centralReviewers := Filter(users, IsCentralReviewer);
    if !viewer.isSectionHead || specialistId == "" then centralReviewers
    else match SpecialistGovernorate(users, specialistId)
      case None => centralReviewers
      case Some(g) => Filter(centralReviewers, ReviewerIn(ReviewerIdsIn(cases, audits, g)))
  }

  /** Some audit of a case of governorate `g` names `uid` as its central reviewer. */
  predicate ReviewedCaseIn(cases: seq<Case>, audits: seq<Audit>, g: string, uid: string) {
    exists i, j :: 0 <= i < |audits| && 0 <= j < |cases|
      && cases[j].governorateId == g && audits[i].caseId == cases[j].id && audits[i].centralReviewerUserId == Some(uid)
  }

  /** The reviewer ids collected for `g` are exactly the reviewers of its cases. */
  lemma ReviewerIdsInIff(cases: seq<Case>, audits: seq<Audit>, g: string, uid: string)
    ensures Some(uid) in ReviewerIdsIn(cases, audits, g) <==> ReviewedCaseIn(cases, audits, g, uid)
  {
    var caseIds := set j | 0 <= j < |cases| && cases[j].governorateId == g :: cases[j].id;
    if Some(uid) in ReviewerIdsIn(cases, audits, g) {
      var i :| 0 <= i < |audits| && audits[i].caseId in caseIds && audits[i].centralReviewerUserId == Some(uid);
      var j :| 0 <= j < |cases| && cases[j].governorateId == g && cases[j].id == audits[i].caseId;
    }
    if ReviewedCaseIn(cases, audits, g, uid) {
      var i, j :| 0 <= i < |audits| && 0 <= j < |cases|
        && cases[j].governorateId == g && audits[i].caseId == cases[j].id && audits[i].centralReviewerUserId == Some(uid);
      assert audits[i].caseId in caseIds;
    }
  }

  /**
   * For a section head with a specialist of governorate `g` selected, a user is offered exactly
   * when they are a central reviewer who reviewed some case of `g`; otherwise every central
   * reviewer is offered.
   */
  lemma ReviewerOptionsCorrect(cases: seq<Case>, audits: seq<Audit>, users: seq<User>, viewer: Viewer, specialistId: string)
    ensures viewer.isSectionHead && specialistId != "" && SpecialistGovernorate(users, specialistId).Some? ==>
      var g := SpecialistGovernorate(users, specialistId).value;
      forall u :: u in ReviewerOptionsFiltered(cases, audits, users, viewer, specialistId) <==>
        u in users && IsCentralReviewer(u) && ReviewedCaseIn(cases, audits, g, u.id)
    ensures !(viewer.isSectionHead && specialistId != "" && SpecialistGovernorate(users, specialistId).Some?) ==>
      ReviewerOptionsFiltered(cases, audits, users, viewer, specialistId) == Filter(users, IsCentralReviewer)
  {
    if viewer.isSectionHead && specialistId != "" && SpecialistGovernorate(users, specialistId).Some? {
      var g := SpecialistGovernorate(users, specialistId).value;
      var ids := ReviewerIdsIn(cases, audits, g);
      var reviewers := Filter(users, IsCentralReviewer);
      forall u
        ensures u in Filter(reviewers, ReviewerIn(ids)) <==>
          u in users && IsCentralReviewer(u) && ReviewedCaseIn(cases, audits, g, u.id)
      {
        FilterMembership(reviewers, ReviewerIn(ids), u);
        FilterMembership(users, IsCentralReviewer, u);
        ReviewerIdsInIff(cases, audits, g, u.id);
      }
    }
  }
}
