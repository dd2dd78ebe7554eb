/** The records of the classroom app: classrooms, join requests, enrolments,
    assignments and student submissions, with their defaults, uniqueness
    constraints and deadline properties. */
module ClassroomModels {
  import opened Base

  datatype Classroom = Classroom(
    id: Uuid,
    teacher: Option<Uuid>,
    name: string,
    subjectCode: Option<string>,
    description: Option<string>,
    createdAt: Instant)

  datatype JoinStatus = JoinPending | JoinApproved | JoinRejected

  datatype JoinRequest = JoinRequest(
    id: Uuid,
    classroom: Uuid,
    student: Uuid,
    status: JoinStatus,
    requestedAt: Instant,
    reviewedAt: Option<Instant>)

  /** An enrolment of a student in a classroom (a `StudentClassroom` row). */
  datatype StudentClassroom = StudentClassroom(
    classroom: Uuid,
    student: Uuid,
    joinedAt: Instant)

  datatype AssignmentStatus = Draft | Active

  datatype Assignment = Assignment(
    id: Uuid,
    classroom: Uuid,
    teacher: Uuid,
    title: string,
    description: Option<string>,
    resourcePdf: Option<string>,
    questionPdf: Option<string>,
    questionMethod: Option<string>,
    questionsReady: bool,
    ragCollection: Option<string>,
    ragTrained: Option<bool>,
    ragTrainedAt: Option<Instant>,
    status: Option<AssignmentStatus>,
    deadline: Instant,
    createdAt: Instant)

  datatype SubmissionStatus = Pending | Submitted | Graded | Late

  /** One student's submission for one assignment (a `StudentAssignment` row). */
  datatype StudentAssignment = StudentAssignment(
    id: Uuid,
    assignment: Uuid,
    student: Uuid,
    submittedFile: Option<string>,
    status: SubmissionStatus,
    extractedText: Option<string>,
    ocrStatus: string,
    ocrError: Option<string>,
    submittedAt: Option<Instant>,
    marks: Option<real>,
    plagiarismScore: Option<real>,
    plagiarismSimilarity: Option<real>,
    correctnessScore: Option<real>,
    finalScore: Option<real>)

  /** A join request as inserted: status at its default. */
  function NewJoinRequest(id: Uuid, classroom: Uuid, student: Uuid, now: Instant): JoinRequest {
    JoinRequest(id, classroom, student, JoinPending, now, None)
  }

  /** An assignment row as inserted from the given fields, the others at their defaults. */
  function NewAssignment(id: Uuid, classroom: Uuid, teacher: Uuid, title: string,
                         description: Option<string>, resourcePdf: Option<string>,
                         questionPdf: Option<string>, questionMethod: Option<string>,
                         deadline: Instant, now: Instant): Assignment
  {
    Assignment(id, classroom, teacher, title, description, resourcePdf, questionPdf,
               questionMethod, false, None, Some(false), None, Some(Draft), deadline, now)
  }

  /** A submission row as inserted from the given fields, the others at their defaults. */
  function NewStudentAssignment(id: Uuid, assignment: Uuid, student: Uuid,
                                submittedFile: Option<string>): StudentAssignment
  {
    StudentAssignment(id, assignment, student, submittedFile, Pending, None, "pending",
                      None, None, None, None, None, None, None)
  }

  /** Every score field of a submission is null. */
  predicate Unscored(s: StudentAssignment) {
    s.marks.None? && s.plagiarismScore.None? && s.plagiarismSimilarity.None?
    && s.correctnessScore.None? && s.finalScore.None?
  }

  /** A freshly inserted submission is pending for both grading and OCR, and unscored. */
  lemma NewStudentAssignmentDefaults(id: Uuid, assignment: Uuid, student: Uuid, file: Option<string>)
    ensures var s := NewStudentAssignment(id, assignment, student, file);
      s.status == Pending && s.ocrStatus == "pending" && Unscored(s)
      && s.extractedText.None? && s.submittedAt.None?
  {
  }

  /** A new join request is pending and unreviewed. */
  lemma NewJoinRequestDefaults(id: Uuid, classroom: Uuid, student: Uuid, now: Instant)
    ensures var jr := NewJoinRequest(id, classroom, student, now);
      jr.status == JoinPending && jr.reviewedAt.None? && jr.requestedAt == now
  {
  }

  /** A new assignment is a draft whose questions are not ready and whose
      RAG fields are unset. */
  lemma NewAssignmentDefaults(id: Uuid, classroom: Uuid, teacher: Uuid, title: string,
                              description: Option<string>, resourcePdf: Option<string>, questionPdf: Option<string>,
                              questionMethod: Option<string>, deadline: Instant, now: Instant)
    ensures var a := NewAssignment(id, classroom, teacher, title, description, resourcePdf, questionPdf,
                                   questionMethod, deadline, now);
      !a.questionsReady && a.status == Some(Draft) && a.ragCollection.None? && a.ragTrained == Some(false)
      && a.ragTrainedAt.None? && a.createdAt == now && a.deadline == deadline
  {
  }

  /** `Assignment.is_deadline_passed`: strictly after the deadline. */
  predicate IsDeadlinePassed(a: Assignment, now: Instant) {
    now > a.deadline
  }

  /** `StudentAssignment.is_past_deadline`: the deadline test of the submission's assignment. */
  function IsPastDeadline(s: StudentAssignment, assignments: map<Uuid, Assignment>, now: Instant): (r: Result<bool>)
    ensures s.assignment in assignments ==> r == Ok(IsDeadlinePassed(assignments[s.assignment], now))
    ensures s.assignment !in assignments ==> r.Err?
  {
    if s.assignment in assignments then Ok(now > assignments[s.assignment].deadline)
    else Err(DoesNotExist("Assignment"))
  }

  /** `unique_together = ('assignment', 'student')` on submissions. */
  ghost predicate UniqueSubmissions(rows: map<Uuid, StudentAssignment>) {
    forall i, j :: i in rows && j in rows && i != j ==>
      (rows[i].assignment, rows[i].student) != (rows[j].assignment, rows[j].student)
  }

  /** `unique_together = ('classroom', 'student')` on join requests. */
  ghost predicate UniqueJoinRequests(rows: map<Uuid, JoinRequest>) {
    forall i, j :: i in rows && j in rows && i != j ==>
      (rows[i].classroom, rows[i].student) != (rows[j].classroom, rows[j].student)
  }

  /** `unique_together = ('classroom', 'student')` on enrolments. */
  ghost predicate UniqueEnrollments(rows: seq<StudentClassroom>) {
    forall i, j :: 0 <= i < j < |rows| ==>
      (rows[i].classroom, rows[i].student) != (rows[j].classroom, rows[j].student)
  }

  /** Whether some enrolment links `classroom` and `student`. */
  predicate Enrolled(rows: seq<StudentClassroom>, classroom: Uuid, student: Uuid) {
    exists i :: 0 <= i < |rows| && rows[i].classroom == classroom && rows[i].student == student
  }

  /** Primary keys inside the rows agree with the map keys. */
  ghost predicate KeyedById(rows: map<Uuid, StudentAssignment>) {
    forall i :: i in rows ==> rows[i].id == i
  }
}
