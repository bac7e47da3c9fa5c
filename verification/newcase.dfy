/**
 * The specialist's new-case form (`src/pages/portal/specialist/NewCase.jsx`): the age computed
 * from the birth date, the required-field check, and the submission that creates the case with
 * its defaults and a notification for the supervisor.
 */
module NewCase {
  import opened Wrappers
  import opened JsText
  import opened Records
  import opened Storage

  /** The form's fields, as the inputs hold them (text; dates as the picker's string). */
  datatype CaseForm = CaseForm(
    studentName: string,
    gender: string,
    birthDate: string,
    governorateId: string,
    diagnosisDate: string,
    civilNumber: string,
    correspondenceNumber: string,
    school: string,
    caseDescription: string,
    referralSource: string,
    recommendations: string)

  // ---------------------------------------------------------------- age

  /** Calendar order on (year, month, day) triples. */
  predicate DayBefore(y1: int, m1: int, d1: int, y2: int, m2: int, d2: int) {
    y1 < y2 || (y1 == y2 && (m1 < m2 || (m1 == m2 && d1 < d2)))
  }

  /**
   * `calculateAge(birthDate)` with `today` the clock's local date and `birth` the parse of the
   * birth-date string: 0 for an empty string, none for an unparsable one (the JavaScript result is
   * NaN), otherwise the difference of the years, less one while this year's birthday is still ahead.
   */
  function CalculateAge(birth: DateStr, today: Instant): (age: Option<int>)
    ensures birth.NoDate? ==> age == Some(0)
    ensures birth.BadDate? <==> age.None?
  {
    match birth
    case NoDate => Some(0)
    case BadDate => None
    case Date(b) =>
      var monthDiff := today.month - b.month;
      var years := today.year - b.year;
      if monthDiff < 0 || (monthDiff == 0 && today.day < b.day) then Some(years - 1) else Some(years)
  }

  /**
   * The age is the number of birthdays that have come: the birthday of year `birth + age` is on or
   * before today, the next one is after today. This fixes the age uniquely.
   */
  lemma AgeCountsBirthdays(b: Instant, today: Instant)
    ensures var age := CalculateAge(Date(b), today);
      && age.Some?
      && !DayBefore(today.year, today.month, today.day, b.year + age.value, b.month, b.day)
      && DayBefore(today.year, today.month, today.day, b.year + age.value + 1, b.month, b.day)
  {
  }

  /** Any number of whole years with those two properties is the computed age. */
  lemma AgeUnique(b: Instant, today: Instant, n: int)
    requires !DayBefore(today.year, today.month, today.day, b.year + n, b.month, b.day)
    requires DayBefore(today.year, today.month, today.day, b.year + n + 1, b.month, b.day)
    ensures CalculateAge(Date(b), today) == Some(n)
  {
    AgeCountsBirthdays(b, today);
  }

  /** A birth date not after today gives a non-negative age. */
  lemma AgeNonNegative(b: Instant, today: Instant)
    requires !DayBefore(today.year, today.month, today.day, b.year, b.month, b.day)
    ensures CalculateAge(Date(b), today).Some? && CalculateAge(Date(b), today).value >= 0
  {
  }

  // ---------------------------------------------------------------- validation

  /** The required fields; `correspondenceNumber` is not one of them. */
  datatype Field =
    | StudentName | Gender | BirthDate | GovernorateId | DiagnosisDate
    | CivilNumber | School | CaseDescription | ReferralSource | Recommendations

  function FieldText(form: CaseForm, f: Field): string {
    match f
    case StudentName => form.studentName
    case Gender => form.gender
    case BirthDate => form.birthDate
    case GovernorateId => form.governorateId
    case DiagnosisDate => form.diagnosisDate
    case CivilNumber => form.civilNumber
    case School => form.school
    case CaseDescription => form.caseDescription
    case ReferralSource => form.referralSource
    case Recommendations => form.recommendations
  }

  /** The free-text fields are checked after `trim()`; the selects and date pickers as they are. */
  predicate CheckedTrimmed(f: Field) {
    !(f.Gender? || f.BirthDate? || f.GovernorateId? || f.DiagnosisDate?)
  }

  /** Whether the check flags field `f` as missing. */
  predicate Missing(form: CaseForm, f: Field) {
    if CheckedTrimmed(f) then Trim(FieldText(form, f)) == [] else FieldText(form, f) == []
  }

  /** The message shown under a missing field. */
  function Message(f: Field): string {
    match f
    case StudentName => "اسم الطالب مطلوب"
    case Gender => "الجنس مطلوب"
    case BirthDate => "تاريخ الميلاد مطلوب"
    case GovernorateId => "المنطقة مطلوبة"
    case DiagnosisDate => "تاريخ التشخيص مطلوب"
    case CivilNumber => "الرقم المدني مطلوب"
    case School => "المدرسة مطلوبة"
    case CaseDescription => "وصف الحالة مطلوب"
    case ReferralSource => "جهة الإحالة مطلوبة"
    case Recommendations => "التوصيات مطلوبة"
  }

  /** `errors` flags exactly the missing fields among `checked`, each with its message. */
  ghost predicate FlaggedAmong(errors: map<Field, string>, form: CaseForm, checked: set<Field>) {
    && (forall f :: f in errors <==> f in checked && Missing(form, f))
    && (forall f :: f in errors ==> errors[f] == Message(f))
  }

  /** `if (missing) newErrors.field = message`: one step of `validate`, which checks one more field. */
  function Flag(errors: map<Field, string>, form: CaseForm, f: Field): (r: map<Field, string>)
    ensures f in r <==> f in errors || Missing(form, f)
  {
    if Missing(form, f) then errors[f := Message(f)] else errors
  }

  /** Flagging one more field extends the set of checked fields by that field. */
  lemma FlagStep(errors: map<Field, string>, form: CaseForm, checked: set<Field>, f: Field)
    requires FlaggedAmong(errors, form, checked)
    ensures FlaggedAmong(Flag(errors, form, f), form, checked + {f})
  {
  }

  /**
   * `validate`: the fields are checked one after the other into a fresh errors object; the form
   * is valid when nothing was flagged.
   */
  method Validate(form: CaseForm) returns (errors: map<Field, string>, ok: bool)
    ensures forall f :: f in errors <==> Missing(form, f)
    ensures forall f :: f in errors ==> errors[f] == Message(f)
    ensures ok <==> forall f :: !Missing(form, f)
  {
    errors := map[];
    ghost var checked: set<Field> := {};
    FlagStep(errors, form, checked, StudentName);
    errors, checked := Flag(errors, form, StudentName), checked + {StudentName};
    FlagStep(errors, form, checked, Gender);
    errors, checked := Flag(errors, form, Gender), checked + {Gender};
    FlagStep(errors, form, checked, BirthDate);
    errors, checked := Flag(errors, form, BirthDate), checked + {BirthDate};
    FlagStep(errors, form, checked, GovernorateId);
    errors, checked := Flag(errors, form, GovernorateId), checked + {GovernorateId};
    FlagStep(errors, form, checked, DiagnosisDate);
    errors, checked := Flag(errors, form, DiagnosisDate), checked + {DiagnosisDate};
    FlagStep(errors, form, checked, CivilNumber);
    errors, checked := Flag(errors, form, CivilNumber), checked + {CivilNumber};
    FlagStep(errors, form, checked, School);
    errors, checked := Flag(errors, form, School), checked + {School};
    FlagStep(errors, form, checked, CaseDescription);
    errors, checked := Flag(errors, form, CaseDescription), checked + {CaseDescription};
    FlagStep(errors, form, checked, ReferralSource);
    errors, checked := Flag(errors, form, ReferralSource), checked + {ReferralSource};
    FlagStep(errors, form, checked, Recommendations);
    errors, checked := Flag(errors, form, Recommendations), checked + {Recommendations};
    forall f ensures f in checked {
      match f
      case StudentName =>
      case Gender =>
      case BirthDate =>
      case GovernorateId =>
      case DiagnosisDate =>
      case CivilNumber =>
      case School =>
      case CaseDescription =>
      case ReferralSource =>
      case Recommendations =>
    }
    ok := |errors| == 0;
    if !ok {
      var f :| f in errors;
    }
  }

  /** A free-text field is flagged exactly when it holds nothing but white space. */
  lemma TextFieldMissingIffBlank(form: CaseForm, f: Field)
    requires CheckedTrimmed(f)
    ensures Missing(form, f) <==> forall i :: 0 <= i < |FieldText(form, f)| ==> IsSpace(FieldText(form, f)[i])
  {
    TrimEmptyIffBlank(FieldText(form, f));
  }

  /** A white-space-only select value is not flagged: the selects are not trimmed. */
  lemma SelectNotTrimmed(form: CaseForm)
    requires form.gender == " "
    ensures !Missing(form, Gender)
  {
  }

  /** The correspondence number never affects the check. */
  lemma CorrespondenceNumberIgnored(form: CaseForm, x: string)
    ensures forall f :: Missing(form.(correspondenceNumber := x), f) <==> Missing(form, f)
  {
    forall f ensures Missing(form.(correspondenceNumber := x), f) <==> Missing(form, f) {
      assert FieldText(form.(correspondenceNumber := x), f) == FieldText(form, f);
    }
  }

  // ---------------------------------------------------------------- submission

  const DisabilityUnclassified: string := "غير مصنف"
  const NotificationNewCase: string := "new_case"
  const SupervisorUserId: string := "user_supervisor"

  /**
   * The stored age: a number, or `null` where the computation gave NaN (JSON writes NaN as
   * `null`).
   */
  function AgeValue(age: Option<int>): Value {
    match age
    case Some(n) => Num(n)
    case None => Null
  }

  /** `attachments: { count: 0, required: 7 }`. */
  const NoAttachments: Value := Obj(map["count" := Num(0), "required" := Num(7)])

  /** The data handed to `casesStorage.create`: the form's fields, the age and the defaults. */
  function CaseData(form: CaseForm, age: Option<int>): Record {
    map[
      "studentName" := Str(form.studentName),
      "gender" := Str(form.gender),
      "birthDate" := Str(form.birthDate),
      "governorateId" := Str(form.governorateId),
      "diagnosisDate" := Str(form.diagnosisDate),
      "civilNumber" := Str(form.civilNumber),
      "correspondenceNumber" := Str(form.correspondenceNumber),
      "school" := Str(form.school),
      "caseDescription" := Str(form.caseDescription),
      "referralSource" := Str(form.referralSource),
      "recommendations" := Str(form.recommendations),
      "age" := AgeValue(age),
      "status" := Str(StatusPendingEvaluation),
      "disabilityType" := Str(DisabilityUnclassified),
      "schoolType" := Str(SchoolPublic),
      "attachments" := NoAttachments
    ]
  }

  /**
   * The notification text: the student's name and the governorate's name, which reads
   * `undefined` when the id names no governorate.
   */
  function NotificationMessage(form: CaseForm): string {
    var name := match FindGovernorateName(Governorates, form.governorateId)
      case Some(n) => n
      case None => "undefined";
    "تم تسجيل حالة جديدة: " + form.studentName + " في " + name
  }

  /** The data handed to `notificationsStorage.create` for the new case with id `caseId`. */
  function NotificationData(message: string, caseId: Value): Record {
    map[
      "message" := Str(message),
      "type" := Str(NotificationNewCase),
      "caseId" := caseId,
      "userId" := Str(SupervisorUserId)
    ]
  }

  /**
   * The created case has the evaluation-pending status, the unclassified disability, the
   * public-school default, no attachments out of seven, the computed age, the generated id and
   * the creation time.
   */
  lemma CreatedCaseDefaults(form: CaseForm, age: Option<int>, caseId: string, now: string)
    ensures var r := NewRecord(Cases, CaseData(form, age), caseId, now);
      && r["status"] == Str(StatusPendingEvaluation)
      && r["disabilityType"] == Str(DisabilityUnclassified)
      && r["schoolType"] == Str(SchoolPublic)
      && r["attachments"] == Obj(map["count" := Num(0), "required" := Num(7)])
      && r["age"] == AgeValue(age)
      && r["id"] == Str(caseId)
      && r["createdAt"] == Str(now) && r["updatedAt"] == Str(now)
  {
  }

  /** The created case keeps every field of the form, the correspondence number included. */
  lemma CreatedCaseKeepsForm(form: CaseForm, age: Option<int>, caseId: string, now: string)
    ensures var r := NewRecord(Cases, CaseData(form, age), caseId, now);
      && (forall f :: FieldKey(f) in r && r[FieldKey(f)] == Str(FieldText(form, f)))
      && r["correspondenceNumber"] == Str(form.correspondenceNumber)
  {
    var data := CaseData(form, age);
    NewRecordFields(Cases, data, caseId, now);
    forall f ensures FieldKey(f) in data && FieldKey(f) !in DefaultedKeys(Cases) && data[FieldKey(f)] == Str(FieldText(form, f)) {
      CaseDataField(form, age, f);
    }
    assert "correspondenceNumber" in data && |"correspondenceNumber"| == 20;
  }

  /** Each required field is stored under its key, which `create` leaves alone. */
  lemma CaseDataField(form: CaseForm, age: Option<int>, f: Field)
    ensures FieldKey(f) in CaseData(form, age) && FieldKey(f) !in DefaultedKeys(Cases)
    ensures CaseData(form, age)[FieldKey(f)] == Str(FieldText(form, f))
  {
    var k := FieldKey(f);
    if f.BirthDate? {
      assert k[0] == 'b';
    } else {
      assert |k| != 2 && |k| != 9;
    }
  }

  /** The record key of a required field. */
  function FieldKey(f: Field): string {
    match f
    case StudentName => "studentName"
    case Gender => "gender"
    case BirthDate => "birthDate"
    case GovernorateId => "governorateId"
    case DiagnosisDate => "diagnosisDate"
    case CivilNumber => "civilNumber"
    case School => "school"
    case CaseDescription => "caseDescription"
    case ReferralSource => "referralSource"
    case Recommendations => "recommendations"
  }

  /** The notification is an unread `new_case` notice to the supervisor naming the case. */
  lemma CreatedNotification(message: string, caseId: string, notificationId: string, now: string)
    ensures var r := NewRecord(Notifications, NotificationData(message, Str(caseId)), notificationId, now);
      && r["type"] == Str(NotificationNewCase)
      && r["userId"] == Str(SupervisorUserId)
      && r["caseId"] == Str(caseId)
      && r["message"] == Str(message)
      && r["read"] == Bool(false)
      && r["id"] == Str(notificationId)
  {
  }

  /**
   * `handleSubmit`: a form that fails the check changes no store; otherwise the case is appended
   * to the cases store and the notification put at the front of the notifications store. The
   * parse of the birth date, today's date, the two generated ids and the current time are
   * parameters.
   */
  method Submit(
    form: CaseForm, birth: DateStr, today: Instant,
    cases: EntityStore, notifications: EntityStore,
    caseId: string, notificationId: string, now: string)
    returns (ok: bool)
    requires cases.kind == Cases && notifications.kind == Notifications
    requires cases != notifications
    requires (form.birthDate == []) <==> birth.NoDate?
    modifies cases, notifications
    ensures ok <==> forall f :: !Missing(form, f)
    ensures !ok ==> cases.items == old(cases.items) && notifications.items == old(notifications.items)
    ensures ok ==> cases.items == old(cases.items) + [NewRecord(Cases, CaseData(form, CalculateAge(birth, today)), caseId, now)]
    ensures ok ==> notifications.items == [NewRecord(Notifications, NotificationData(NotificationMessage(form), Str(caseId)), notificationId, now)] + old(notifications.items)
  {
    var errors;
    errors, ok := Validate(form);
    if !ok {
      return;
    }
    var age := CalculateAge(birth, today);
    var data := CaseData(form, age);
    var created := cases.Create(data, caseId, now);
    CreatedCaseDefaults(form, age, caseId, now);
    var message := NotificationMessage(form);
    var _ := notifications.Create(NotificationData(message, created["id"]), notificationId, now);
  }
}
