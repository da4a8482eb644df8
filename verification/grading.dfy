/** `enviarNota` (grade submission) and the guard of `generarCertificado`.
    The grade field has already gone through `parseFloat`: `None` is `NaN`.
    The signed-in user and the outcome of the backend insert are inputs. */
module Grading {
  import opened Optional
  import opened Wizard

  /** The signed-in user, as far as these handlers look at it. */
  datatype User = User(email: string)

  /** The row `enviarNota` inserts into `notas`. */
  datatype GradeRecord = GradeRecord(email: string, grade: real, courseId: int)

  /** Why a submission stops before any write. */
  datatype Rejection = NotAuthenticated | NoCourseSelected | InvalidGrade

  /** What the user is told. */
  datatype Outcome =
    | Rejected(reason: Rejection)
    | StoreFailed(message: string)   // the insert reported an error
    | Approved
    | NotApproved

  /** The effect of one submission: the insert attempted (if any), what the
      user is told, and the wizard state afterwards. */
  datatype Submission = Submission(write: Option<GradeRecord>, outcome: Outcome, after: WizardState)

  /** Lowest and highest grade accepted, and the lowest passing grade. */
  const MinGrade: real := 0.0
  const MaxGrade: real := 20.0
  const PassingGrade: real := 14.0

  /** A grade `enviarNota` accepts. */
  predicate InRange(grade: real)
  {
    MinGrade <= grade <= MaxGrade
  }

  /** The pass rule, shared by `enviarNota` and the report in admin.js. */
  predicate Passes(grade: real)
  {
    grade >= PassingGrade
  }

  /** The three checks of `enviarNota`, in the order they are made. */
  function Validate(user: Option<User>, course: Option<Course>, grade: Option<real>): (r: Result<GradeRecord, Rejection>)
    ensures user.None? ==> r == Failure(NotAuthenticated)
    ensures user.Some? && course.None? ==> r == Failure(NoCourseSelected)
    ensures user.Some? && course.Some? && (grade.None? || !InRange(grade.value)) ==> r == Failure(InvalidGrade)
    ensures r.Success? <==> user.Some? && course.Some? && grade.Some? && InRange(grade.value)
    ensures r.Success? ==> r.value == GradeRecord(user.value.email, grade.value, course.value.id)
  {
    if user.None? then Failure(NotAuthenticated)
    else if course.None? then Failure(NoCourseSelected)
    else if grade.None? || grade.value < MinGrade || grade.value > MaxGrade then Failure(InvalidGrade)
    else Success(GradeRecord(user.value.email, grade.value, course.value.id))
  }

  /** `enviarNota`. `insertError` is the error the backend reports for the
      insert, `None` when it succeeded. */
  function Submit(s: WizardState, user: Option<User>, grade: Option<real>, insertError: Option<string>): (r: Submission)
    ensures r.after.course == s.course && r.after.cursor == s.cursor
    ensures r.write.None? <==> Validate(user, s.course, grade).Failure?
    ensures r.write.Some? ==> InRange(r.write.value.grade) && Some(r.write.value.grade) == grade
    ensures Validate(user, s.course, grade).Success? ==> r.write == Some(Validate(user, s.course, grade).value)
    ensures Validate(user, s.course, grade).Failure? ==> r.outcome == Rejected(Validate(user, s.course, grade).error)
    ensures r.after.certificateShown <==> s.certificateShown || r.outcome == Approved
    ensures r.outcome.StoreFailed? <==> Validate(user, s.course, grade).Success? && insertError.Some?
    ensures (r.outcome == NotApproved)
        <==> (Validate(user, s.course, grade).Success? && insertError.None? && !Passes(grade.value))
  {
    match Validate(user, s.course, grade)
    case Failure(why) => Submission(None, Rejected(why), s)
    case Success(record) =>
      if insertError.Some? then Submission(Some(record), StoreFailed(insertError.value), s)
      else if record.grade >= PassingGrade then Submission(Some(record), Approved, s.(certificateShown := true))
      else Submission(Some(record), NotApproved, s)
  }

  /** The certificate section is revealed exactly for a signed-in user with
      a selected course, a stored grade and a grade from 14 to 20. */
  lemma ApprovedIff(s: WizardState, user: Option<User>, grade: Option<real>, insertError: Option<string>)
    ensures Submit(s, user, grade, insertError).outcome == Approved
        <==> user.Some? && s.course.Some? && insertError.None? && grade.Some?
             && Passes(grade.value) && grade.value <= MaxGrade
  {
  }

  /** The grade boundaries: -1, 21 and `NaN` are refused before any write;
      0, 14 and 20 are written; of these only 14 and 20 pass. */
  lemma GradeBoundaries(s: WizardState, u: User, c: Course)
    requires s.course == Some(c)
    ensures Submit(s, Some(u), Some(-1.0), None).write.None?
    ensures Submit(s, Some(u), Some(21.0), None).write.None?
    ensures Submit(s, Some(u), None, None).outcome == Rejected(InvalidGrade)
    ensures Submit(s, Some(u), Some(0.0), None).outcome == NotApproved
    ensures Submit(s, Some(u), Some(14.0), None).outcome == Approved
    ensures Submit(s, Some(u), Some(20.0), None).outcome == Approved
    ensures Submit(s, Some(u), Some(13.99), None).outcome == NotApproved
  {
  }

  /** What `generarCertificado` hands to the certificate generator. */
  datatype CertificateRequest = CertificateRequest(course: Course, grade: Option<real>)

  /** `generarCertificado`: it checks only for a user and a course; the
      grade is read again from the input and passed on unchecked. */
  function RequestCertificate(s: WizardState, user: Option<User>, grade: Option<real>): (r: Option<CertificateRequest>)
    ensures r.Some? <==> user.Some? && s.course.Some?
    ensures r.Some? ==> r.value.course == s.course.value && r.value.grade == grade
  {
    if user.None? || s.course.None? then None else Some(CertificateRequest(s.course.value, grade))
  }

  /** The certificate guard does not repeat the grade checks: a `NaN` or a
      failing grade still reaches the generator. */
  lemma CertificateGradeUnchecked(s: WizardState, u: User, c: Course)
    requires s.course == Some(c)
    ensures RequestCertificate(s, Some(u), None).Some?
    ensures var r := RequestCertificate(s, Some(u), Some(5.0)); r.Some? && !Passes(r.value.grade.value)
  {
  }

  /** After an approved submission the certificate section is shown, and
      the certificate requested with the same grade carries a passing grade
      within range. */
  lemma ApprovedThenCertificate(s: WizardState, u: User, g: real)
    requires Submit(s, Some(u), Some(g), None).outcome == Approved
    ensures var after := Submit(s, Some(u), Some(g), None).after;
            var r := RequestCertificate(after, Some(u), Some(g));
            && after.certificateShown
            && r.Some? && r.value.course == s.course.value
            && Passes(r.value.grade.value) && InRange(r.value.grade.value)
  {
  }
}
