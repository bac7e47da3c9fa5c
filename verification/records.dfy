/**
 * The record shapes the portal's pages and report engine read (cases, central-review audits,
 * users, governorates) and the fixed tables of `src/data/constants.js`.
 *
 * A text field that is missing from a stored record is the empty string here: every reader in
 * the portal treats a missing text field and `''` alike (`c.school || ''`, `if (c.educationProgram && ...)`).
 */
module Records {
  import opened Wrappers

  /**
   * A moment as `new Date(value)` yields it: the epoch milliseconds `ms` (`getTime()`) and the local
   * calendar fields `getFullYear()`, `getMonth()` (0 to 11) and `getDate()` (1 to 31).
   */
  datatype Instant = Instant(ms: int, year: int, month: int, day: int)

  /**
   * A stored date string: `NoDate` is a missing or empty value (falsy), `BadDate` a non-empty
   * string `new Date` cannot parse (its time is NaN), `Date` a parsable one.
   */
  datatype DateStr = NoDate | BadDate | Date(at: Instant) {

    /** Whether the string itself is truthy. */
    predicate IsSet() {
      !NoDate?
    }

    /** `parseISODate`: the parsed moment, or none for a missing or unparsable string. */
    function Parse(): Option<Instant> {
      if Date? then Some(at) else None
    }
  }

  datatype Governorate = Governorate(id: string, name: string)

  /** `GOVERNORATES`: the fixed eleven governorates, in enumeration order. */
  const Governorates: seq<Governorate> := [
    Governorate("1", "مسقط"),
    Governorate("2", "ظفار"),
    Governorate("3", "مسندم"),
    Governorate("4", "البريمي"),
    Governorate("5", "الداخلية"),
    Governorate("6", "شمال الباطنة"),
    Governorate("7", "جنوب الباطنة"),
    Governorate("8", "جنوب الشرقية"),
    Governorate("9", "شمال الشرقية"),
    Governorate("10", "الظاهرة"),
    Governorate("11", "الوسطى")
  ]

  /** `GOVERNORATES.find((g) => g.id === id)?.name`: the name of the first governorate of `gs` with id `id`. */
  function FindGovernorateName(gs: seq<Governorate>, id: string): (r: Option<string>)
    ensures r.Some? <==> exists i :: 0 <= i < |gs| && gs[i].id == id
    ensures r.Some? ==> exists i :: 0 <= i < |gs| && gs[i].id == id && gs[i].name == r.value
  {
    if gs == [] then None
    else if gs[0].id == id then Some(gs[0].name)
    else
      var r := FindGovernorateName(gs[1..], id);
      assert forall i :: 0 < i < |gs| ==> gs[i] == gs[1..][i - 1];
      r
  }

  const RoleSpecialist: string := "الأخصائي"
  const RoleSupervisor: string := "المشرف"

  const StatusPendingEvaluation: string := "قيد التقييم"
  const StatusCompleted: string := "مكتمل"
  const StatusIncomplete: string := "ناقص"

  const GenderMale: string := "ذكر"
  const GenderFemale: string := "أنثى"

  /** `REFERRAL_SOURCES`. */
  const ReferralSources: seq<string> := [
    "المدارس",
    "دائرة الأشراف التربوي",
    "شؤون الطلبة",
    "دائرة التوجيه المهني والإرشاد الطلابي"
  ]

  const SchoolPublic: string := "مدارس حكومية"
  const SchoolPrivate: string := "مدارس خاصة"

  const InclusionFull: string := "كلي"
  const InclusionPartial: string := "جزئي"

  /** The keys of the seven professional axes under which a central review stores its notes. */
  const AxisKeys: seq<string> := ["axis1", "axis2", "axis3", "axis4", "axis5", "axis6", "axis7"]

  datatype Case = Case(
    id: string,
    governorateId: string,
    disabilityType: string,
    gender: string,
    schoolType: string,
    school: string,
    educationProgram: string,
    inclusionType: string,
    referralSource: string,
    status: string,
    createdAt: DateStr,
    diagnosisDate: DateStr)

  /** The section head's four ratings of a central reviewer (empty string for no rating). */
  datatype ReviewerPerformance = ReviewerPerformance(
    adherence: string,
    notesQuality: string,
    timeliness: string,
    professionalism: string)

  /**
   * An audit, i.e. a central review of one case. `axisNotes` is `professionalAxesNotes`, keyed by
   * axis key; the three scores are the numeric fields with a missing one read as 0 (`|| 0`).
   */
  datatype Audit = Audit(
    id: string,
    caseId: string,
    specialistId: Option<string>,
    centralReviewerUserId: Option<string>,
    reviewStatus: string,
    generalNotes: string,
    axisNotes: map<string, string>,
    reviewerPerformance: Option<ReviewerPerformance>,
    documentCompletenessScore: int,
    diagnosticQualityScore: int,
    complianceScore: int)

  datatype User = User(id: string, name: string, role: string, governorateId: string)

  /** `(axes[key] || '')`: the note stored under an axis key. */
  function NoteFor(notes: map<string, string>, key: string): string {
    if key in notes then notes[key] else ""
  }

  /**
   * `new Map(audits.map((a) => [a.caseId, a])).get(caseId)`: a later entry with the same key
   * overwrites an earlier one, so the lookup finds the LAST audit of the case.
   */
  function LastAuditFor(audits: seq<Audit>, caseId: string): (r: Option<Audit>)
    ensures r.None? <==> forall i :: 0 <= i < |audits| ==> audits[i].caseId != caseId
    ensures r.Some? ==>
      exists i :: 0 <= i < |audits| && audits[i] == r.value && audits[i].caseId == caseId
        && forall j :: i < j < |audits| ==> audits[j].caseId != caseId
  {
    if audits == [] then None
    else if audits[|audits| - 1].caseId == caseId then Some(audits[|audits| - 1])
    else LastAuditFor(audits[..|audits| - 1], caseId)
  }

  /** `Boolean(auditsByCaseId.get(c.id))`: the case has a stored audit. */
  function HasAudit(audits: seq<Audit>): Case -> bool {
    (c: Case) => LastAuditFor(audits, c.id).Some?
  }
}
