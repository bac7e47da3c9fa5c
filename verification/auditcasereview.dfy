/**
 * The central-review page of `src/pages/portal/AuditCaseReview.jsx`: the completeness rule of a
 * review draft, the resolution of status and close date on save, and the insert-or-update of the
 * case's audit record.
 */
module CentralReview {
  import opened Wrappers
  import opened JsText
  import opened Records
  import opened Storage

  /** The review statuses of the form. */
  const ReviewCompleted: string := "مكتملة"
  const ReviewInProgress: string := "قيد المراجعة"

  /** `isCentralReviewComplete`: every axis note and the general notes are non-blank, and a start date is set. */
  predicate IsCentralReviewComplete(startDate: string, generalNotes: string, axisNotes: map<string, string>) {
    (forall k :: 0 <= k < |AxisKeys| ==> Trim(NoteFor(axisNotes, AxisKeys[k])) != "")
    && Trim(generalNotes) != ""
    && startDate != ""
  }

  /** A text is non-blank exactly when it holds a character that is not JavaScript whitespace. */
  predicate HasVisibleText(s: string) {
    exists i :: 0 <= i < |s| && !IsSpace(s[i])
  }

  /** Completeness in terms of the notes themselves: each holds a non-whitespace character. */
  lemma CentralReviewCompleteMeaning(startDate: string, generalNotes: string, axisNotes: map<string, string>)
    ensures IsCentralReviewComplete(startDate, generalNotes, axisNotes) <==>
      (forall k :: 0 <= k < |AxisKeys| ==> HasVisibleText(NoteFor(axisNotes, AxisKeys[k])))
      && HasVisibleText(generalNotes)
      && startDate != ""
  {
    TrimEmptyIffBlank(generalNotes);
    forall k | 0 <= k < |AxisKeys| {
      TrimEmptyIffBlank(NoteFor(axisNotes, AxisKeys[k]));
    }
  }

  /** The central review form: reviewer name, dates, requested status, general notes and the notes per axis key. */
  datatype ReviewForm = ReviewForm(
    centralReviewerName: string,
    reviewStartDate: string,
    reviewCloseDate: string,
    reviewStatus: string,
    generalNotes: string,
    axisNotes: map<string, string>)

  /**
   * The status and date resolution of `handleSaveCentralReview`, with `today` the value of
   * `todayISO()`. An empty start date becomes today. A completed status on an incomplete draft
   * is downgraded to "in review" with no close date, and the save is marked failed; a completed
   * status on a complete draft keeps the entered close date or takes today; any other chosen
   * status clears the close date; no status leaves the entered close date alone.
   */
  method ResolveCentralReviewSave(form: ReviewForm, today: string)
    returns (startDate: string, finalStatus: string, closeDate: string, validationFailed: bool)
    requires today != ""
    ensures startDate == (if form.reviewStartDate != "" then form.reviewStartDate else today)
    ensures validationFailed <==>
      form.reviewStatus == ReviewCompleted && !IsCentralReviewComplete(startDate, form.generalNotes, form.axisNotes)
    ensures validationFailed ==> finalStatus == ReviewInProgress && closeDate == ""
    ensures !validationFailed ==> finalStatus == form.reviewStatus
    ensures form.reviewStatus == ReviewCompleted && !validationFailed ==>
      closeDate == (if form.reviewCloseDate != "" then form.reviewCloseDate else today)
    ensures form.reviewStatus != "" && form.reviewStatus != ReviewCompleted ==> closeDate == ""
    ensures form.reviewStatus == "" ==> closeDate == form.reviewCloseDate
  {
    startDate := if form.reviewStartDate != "" then form.reviewStartDate else today;
    var requestedStatus := form.reviewStatus;
    finalStatus := requestedStatus;
    closeDate := form.reviewCloseDate;
    validationFailed := false;
    if requestedStatus == ReviewCompleted {
      var ok := IsCentralReviewComplete(startDate, form.generalNotes, form.axisNotes);
      if !ok {
        validationFailed := true;
        finalStatus := ReviewInProgress;
        closeDate := "";
      } else {
        closeDate := if closeDate != "" then closeDate else today;
      }
    } else if requestedStatus != "" && requestedStatus != ReviewCompleted {
      closeDate := "";
    }
  }

  /**
   * On the save path the start date is never empty, so whether a completed status is accepted
   * depends on the notes alone.
   */
  lemma SaveStartDateAlwaysSet(form: ReviewForm, today: string)
    requires today != ""
    ensures var startDate := if form.reviewStartDate != "" then form.reviewStartDate else today;
      IsCentralReviewComplete(startDate, form.generalNotes, form.axisNotes) <==>
        (forall k :: 0 <= k < |AxisKeys| ==> Trim(NoteFor(form.axisNotes, AxisKeys[k])) != "")
        && Trim(form.generalNotes) != ""
  {
  }

  /** `{ caseId, governorateId, specialistUserId: specialistForCase?.id || null }`. */
  function ReviewBase(caseItem: Case, specialistId: Option<string>): (r: Record)
    ensures r.Keys == {"caseId", "governorateId", "specialistUserId"}
  {
    map[
      "caseId" := Str(caseItem.id),
      "governorateId" := Str(caseItem.governorateId),
      "specialistUserId" := if specialistId.Some? && specialistId.value != "" then Str(specialistId.value) else Null]
  }

  /**
   * The audit list after `upsertReview(partial)`: if an audit of the case exists, the first audit
   * with that audit's id is updated with `{ ...base, ...partial }`; otherwise a new audit with
   * those fields is appended.
   */
  function UpsertedAudits(items: seq<Record>, caseItem: Case, specialistId: Option<string>, partial: Record,
                          generatedId: string, now: string): seq<Record>
  {
    var fields := ReviewBase(caseItem, specialistId) + partial;
    match Find(items, FieldIs("caseId", Some(Str(caseItem.id))))
    case Some(current) =>
      (match FindIndex(items, HasId(Get(current, "id")))
       case Some(k) => items[k := Updated(Audits, items[k], fields, now)]
       case None => items)
    case None => items + [NewRecord(Audits, fields, generatedId, now)]
  }

  /**
   * The index `update(current.id, …)` changes: the first audit holding the id of the case's audit
   * (`findByCaseId`), none when the case has no audit.
   */
  function CaseAuditIndex(items: seq<Record>, caseId: string): (r: Option<nat>)
    ensures r.Some? ==> r.value < |items|
  {
    match Find(items, FieldIs("caseId", Some(Str(caseId))))
    case Some(current) => FindIndex(items, HasId(Get(current, "id")))
    case None => None
  }

  /** No two audits share an id. */
  predicate UniqueIds(items: seq<Record>) {
    forall i, j :: 0 <= i < j < |items| ==> Get(items[i], "id") != Get(items[j], "id")
  }

  /**
   * `after` is `{ ...before, ...base, ...partial }`: the partial fields win, then the base
   * fields, and every other field of `before` is kept.
   */
  predicate SpreadOver(before: Record, after: Record, base: Record, partial: Record) {
    && after.Keys == before.Keys + base.Keys + partial.Keys
    && (forall key :: key in partial ==> after[key] == partial[key])
    && (forall key :: key in base && key !in partial ==> after[key] == base[key])
    && (forall key :: key in before && key !in base && key !in partial ==> after[key] == before[key])
  }

  /**
   * An upsert never removes an audit. When the case already has an audit, the one record holding
   * that audit's id (the case's audit itself when ids are unique) becomes the spread of the review
   * base and the partial fields over it, and keeps its id unless the partial fields set one.
   * Otherwise exactly one audit is appended, carrying the base and the partial fields.
   */
  lemma UpsertedAuditsShape(items: seq<Record>, caseItem: Case, specialistId: Option<string>, partial: Record,
                            generatedId: string, now: string)
    ensures Find(items, FieldIs("caseId", Some(Str(caseItem.id)))).Some? <==> CaseAuditIndex(items, caseItem.id).Some?
    ensures var after := UpsertedAudits(items, caseItem, specialistId, partial, generatedId, now);
      var current := Find(items, FieldIs("caseId", Some(Str(caseItem.id))));
      var k := CaseAuditIndex(items, caseItem.id);
      current.Some? && k.Some? ==>
        && |after| == |items|
        && after == items[k.value := after[k.value]]
        && Get(items[k.value], "id") == Get(current.value, "id")
        && (UniqueIds(items) ==> items[k.value] == current.value)
        && ("id" !in partial ==> Get(after[k.value], "id") == Get(current.value, "id"))
        && SpreadOver(items[k.value], after[k.value], ReviewBase(caseItem, specialistId), partial)
    ensures var after := UpsertedAudits(items, caseItem, specialistId, partial, generatedId, now);
      var base := ReviewBase(caseItem, specialistId);
      Find(items, FieldIs("caseId", Some(Str(caseItem.id)))).None? ==>
        && |after| == |items| + 1 && after[..|items|] == items
        && (forall key :: key in partial && key !in DefaultedKeys(Audits) ==> after[|items|][key] == partial[key])
        && (forall key :: key in base && key !in partial ==> after[|items|][key] == base[key])
  {
    if Find(items, FieldIs("caseId", Some(Str(caseItem.id)))).Some? {
      var _ := UpsertUpdatesExisting(items, caseItem, specialistId, partial, generatedId, now);
    } else {
      UpsertAppendsNew(items, caseItem, specialistId, partial, generatedId, now);
    }
  }

  /**
   * The update half of `UpsertedAuditsShape`: the record at index `k`, the first holding the id of
   * the case's audit, is the only one changed, and becomes the spread of the base and the partial
   * fields over it.
   */
  lemma UpsertUpdatesExisting(items: seq<Record>, caseItem: Case, specialistId: Option<string>, partial: Record,
                              generatedId: string, now: string)
    returns (k: nat)
    requires Find(items, FieldIs("caseId", Some(Str(caseItem.id)))).Some?
    ensures CaseAuditIndex(items, caseItem.id) == Some(k)
    ensures var after := UpsertedAudits(items, caseItem, specialistId, partial, generatedId, now);
      var current := Find(items, FieldIs("caseId", Some(Str(caseItem.id)))).value;
      && |after| == |items| && k < |items|
      && after == items[k := after[k]]
      && Get(items[k], "id") == Get(current, "id")
      && (UniqueIds(items) ==> items[k] == current)
      && ("id" !in partial ==> Get(after[k], "id") == Get(current, "id"))
      && SpreadOver(items[k], after[k], ReviewBase(caseItem, specialistId), partial)
  {
    var current := Find(items, FieldIs("caseId", Some(Str(caseItem.id)))).value;
    var j :| 0 <= j < |items| && items[j] == current;
    assert HasId(Get(current, "id"))(items[j]);
    k := FindIndex(items, HasId(Get(current, "id"))).value;
    var base := ReviewBase(caseItem, specialistId);
    assert UpsertedAudits(items, caseItem, specialistId, partial, generatedId, now)
      == items[k := Updated(Audits, items[k], base + partial, now)];
    UpdateIsSpread(items[k], base, partial, now);
    if UniqueIds(items) {
      assert k <= j;
      assert Get(items[k], "id") == Get(items[j], "id");
    }
  }

  /** `update(id, { ...base, ...partial })` on the audits store spreads the base and the partial fields over the record. */
  lemma UpdateIsSpread(before: Record, base: Record, partial: Record, now: string)
    ensures SpreadOver(before, Updated(Audits, before, base + partial, now), base, partial)
  {
    var fields := base + partial;
    var after := Updated(Audits, before, fields, now);
    assert !StampsUpdates(Audits);
    forall key | key in base && key !in partial ensures after[key] == base[key] {
      assert key in fields && fields[key] == base[key];
    }
    forall key | key in partial ensures after[key] == partial[key] {
      assert key in fields && fields[key] == partial[key];
    }
  }

  /** The create half of `UpsertedAuditsShape`. */
  lemma UpsertAppendsNew(items: seq<Record>, caseItem: Case, specialistId: Option<string>, partial: Record,
                         generatedId: string, now: string)
    requires Find(items, FieldIs("caseId", Some(Str(caseItem.id)))).None?
    ensures var after := UpsertedAudits(items, caseItem, specialistId, partial, generatedId, now);
      var base := ReviewBase(caseItem, specialistId);
      && |after| == |items| + 1 && after[..|items|] == items
      && (forall key :: key in partial && key !in DefaultedKeys(Audits) ==> after[|items|][key] == partial[key])
      && (forall key :: key in base && key !in partial ==> after[|items|][key] == base[key])
  {
    var base := ReviewBase(caseItem, specialistId);
    var fields := base + partial;
    var after := UpsertedAudits(items, caseItem, specialistId, partial, generatedId, now);
    NewRecordFields(Audits, fields, generatedId, now);
    assert after[..|items|] == items;
    forall key | key in base && key !in partial ensures after[|items|][key] == base[key] {
      assert key !in DefaultedKeys(Audits);
      assert key in fields && fields[key] == base[key];
    }
  }

  /** `upsertReview(partial)`: looks up the case's audit and updates it, or creates one. */
  method UpsertReview(audits: EntityStore, caseItem: Case, specialistId: Option<string>, partial: Record,
                      generatedId: string, now: string)
    returns (id: Option<Value>)
    requires audits.kind == Audits
    modifies audits
    ensures audits.items == UpsertedAudits(old(audits.items), caseItem, specialistId, partial, generatedId, now)
  {
    var current := audits.FindBy("caseId", Some(Str(caseItem.id)));
    var base := ReviewBase(caseItem, specialistId);
    if current.Some? {
      var _ := audits.Update(Get(current.value, "id"), base + partial, now);
      id := Get(current.value, "id");
    } else {
      var created := audits.Create(base + partial, generatedId, now);
      id := Get(created, "id");
    }
  }

  /** The payload `handleSaveCentralReview` stores, with the resolved start date, status and close date. */
  function ReviewPayload(form: ReviewForm, user: Option<User>, startDate: string, finalStatus: string, closeDate: string): Record {
    map[
      "centralReviewerUserId" := if user.Some? && user.value.id != "" then Str(user.value.id) else Null,
      "centralReviewerName" :=
        Str(if form.centralReviewerName != "" then form.centralReviewerName
            else if user.Some? then user.value.name else ""),
      "reviewStartDate" := Str(startDate),
      "reviewCloseDate" := Str(closeDate),
      "reviewStatus" := Str(finalStatus),
      "generalNotes" := Str(form.generalNotes),
      "professionalAxesNotes" := Obj(map k | k in form.axisNotes :: Str(form.axisNotes[k]))]
  }

  /**
   * `handleSaveCentralReview`: resolves the status and dates, upserts the payload, and leaves
   * the page exactly when the validation did not fail.
   */
  method SaveCentralReview(audits: EntityStore, caseItem: Case, specialistId: Option<string>, user: Option<User>,
                           form: ReviewForm, today: string, generatedId: string, now: string)
    returns (navigateBack: bool)
    requires audits.kind == Audits && today != ""
    modifies audits
    ensures exists startDate, finalStatus, closeDate ::
      audits.items == UpsertedAudits(old(audits.items), caseItem, specialistId,
        ReviewPayload(form, user, startDate, finalStatus, closeDate), generatedId, now)
      && startDate == (if form.reviewStartDate != "" then form.reviewStartDate else today)
      && (!navigateBack <==>
            form.reviewStatus == ReviewCompleted && !IsCentralReviewComplete(startDate, form.generalNotes, form.axisNotes))
      && (!navigateBack ==> finalStatus == ReviewInProgress && closeDate == "")
      && (navigateBack ==> finalStatus == form.reviewStatus)
      && (form.reviewStatus == ReviewCompleted && navigateBack ==>
            closeDate == (if form.reviewCloseDate != "" then form.reviewCloseDate else today))
      && (form.reviewStatus != "" && form.reviewStatus != ReviewCompleted ==> closeDate == "")
      && (form.reviewStatus == "" ==> closeDate == form.reviewCloseDate)
  {
    var startDate, finalStatus, closeDate, validationFailed := ResolveCentralReviewSave(form, today);
    var payload := ReviewPayload(form, user, startDate, finalStatus, closeDate);
    var _ := UpsertReview(audits, caseItem, specialistId, payload, generatedId, now);
    navigateBack := !validationFailed;
  }
}
