/** The validators and `create` methods of the classroom serializers:
    classrooms, join requests, assignments, submissions, and the bounds of
    the question-generation request. */
module ClassroomSerializers {
  import opened Base
  import opened ClassroomModels
  import opened UserModels
  import opened Profiles
  import opened Store
  import CeleryScheduler

  /** A serializer error not tied to one field. */
  function NonField(msg: string): Error {
    ValidationError("non_field_errors", msg)
  }

  // ----- ClassroomSerializer.validate -----

  /** Another classroom of `teacher` carries `code`; the classroom being
      updated, if any, does not count. */
  predicate SubjectCodeTaken(classrooms: map<Uuid, Classroom>, teacher: Uuid, code: string, instance: Option<Uuid>) {
    exists id :: id in classrooms && classrooms[id].teacher == Some(teacher)
      && classrooms[id].subjectCode == Some(code) && instance != Some(id)
  }

  /** No teacher has two classrooms with the same non-empty subject code. */
  ghost predicate UniqueSubjectCodes(classrooms: map<Uuid, Classroom>) {
    forall i, j :: i in classrooms && j in classrooms && i != j && classrooms[i].teacher.Some?
      && classrooms[i].teacher == classrooms[j].teacher && Truthy(classrooms[i].subjectCode)
      ==> classrooms[i].subjectCode != classrooms[j].subjectCode
  }

  /** `ClassroomSerializer.validate`. `request` is None when the serializer
      has no request in its context. */
  function ValidateClassroom(request: Option<Requester>, teachers: seq<Profile>, classrooms: map<Uuid, Classroom>,
                             subjectCode: Option<string>, instance: Option<Uuid>): (r: Result<()>)
    ensures request.None? ==> r == Ok(())
    ensures request.Some? ==>
      (r.Err? <==> ProfileOf(teachers, request.value).None?
                   || (Truthy(subjectCode)
                       && SubjectCodeTaken(classrooms, ProfileOf(teachers, request.value).value.id, subjectCode.value, instance)))
  {
    if request.None? then Ok(())
    else match ProfileOf(teachers, request.value)
      case None => Err(NonField("This user is not registered as a teacher."))
      case Some(teacher) =>
        if Truthy(subjectCode) && SubjectCodeTaken(classrooms, teacher.id, subjectCode.value, instance) then
          Err(ValidationError("subject_code", "You already have a class with this subject code."))
        else Ok(())
  }

  /** Saving a classroom that passed validation with a request, under the
      requesting teacher and the validated code, keeps subject codes unique
      per teacher, both for a new classroom and for an update of `instance`. */
  lemma ValidatedClassroomKeepsCodesUnique(req: Requester, teachers: seq<Profile>, classrooms: map<Uuid, Classroom>,
                                           instance: Option<Uuid>, c: Classroom)
    requires UniqueSubjectCodes(classrooms)
    requires ValidateClassroom(Some(req), teachers, classrooms, c.subjectCode, instance).Ok?
    requires ProfileOf(teachers, req).Some? && c.teacher == Some(ProfileOf(teachers, req).value.id)
    requires instance.None? ==> c.id !in classrooms
    requires instance.Some? ==> c.id == instance.value
    ensures UniqueSubjectCodes(classrooms[c.id := c])
  {
    var t := ProfileOf(teachers, req).value.id;
    var after := classrooms[c.id := c];
    forall i, j | i in after && j in after && i != j && after[i].teacher.Some?
      && after[i].teacher == after[j].teacher && Truthy(after[i].subjectCode)
      ensures after[i].subjectCode != after[j].subjectCode
    {
      if i == c.id {
        assert !SubjectCodeTaken(classrooms, t, c.subjectCode.value, instance);
        assert !(classrooms[j].teacher == Some(t) && classrooms[j].subjectCode == Some(c.subjectCode.value) && instance != Some(j));
      } else if j == c.id && Truthy(c.subjectCode) {
        assert !(classrooms[i].teacher == Some(t) && classrooms[i].subjectCode == Some(c.subjectCode.value) && instance != Some(i));
      }
    }
  }

  /** Without a request, or with an empty code, there is nothing to compare;
      a requester without a teacher profile is refused first. */
  lemma ClassroomChecksOrder(request: Option<Requester>, teachers: seq<Profile>, classrooms: map<Uuid, Classroom>,
                             subjectCode: Option<string>, instance: Option<Uuid>)
    ensures request.Some? && ProfileOf(teachers, request.value).None? ==>
      ValidateClassroom(request, teachers, classrooms, subjectCode, instance)
        == Err(NonField("This user is not registered as a teacher."))
    ensures request.Some? && ProfileOf(teachers, request.value).Some? && !Truthy(subjectCode) ==>
      ValidateClassroom(request, teachers, classrooms, subjectCode, instance) == Ok(())
  {
  }

  // ----- JoinRequestSerializer.validate -----

  /** `JoinRequest.objects.filter(classroom=..., student=...).exists()`. */
  predicate RequestExists(joinRequests: map<Uuid, JoinRequest>, classroom: Uuid, student: Uuid) {
    exists id :: id in joinRequests && joinRequests[id].classroom == classroom && joinRequests[id].student == student
  }

  /** `JoinRequestSerializer.validate`: the requester's student profile and
      the classroom must be present, and no request for the pair may exist. */
  function ValidateJoinRequest(req: Requester, students: seq<Profile>, joinRequests: map<Uuid, JoinRequest>,
                               classroom: Option<Uuid>): (r: Result<()>)
    ensures r.Ok? <==> ProfileOf(students, req).Some? && classroom.Some?
                       && !RequestExists(joinRequests, classroom.value, ProfileOf(students, req).value.id)
    ensures ProfileOf(students, req).None? ==> r == Err(NonField("Only students can send join requests."))
    ensures ProfileOf(students, req).Some? && classroom.None? ==> r == Err(NonField("Classroom ID is required."))
  {
    match ProfileOf(students, req)
    case None => Err(NonField("Only students can send join requests."))
    case Some(student) =>
      if classroom.None? then Err(NonField("Classroom ID is required."))
      else if RequestExists(joinRequests, classroom.value, student.id) then
        Err(NonField("You\U{2019}ve already sent a request for this class."))
      else Ok(())
  }

  /** Inserting the request that passed validation, for the requesting
      student, keeps one request per (classroom, student) pair. */
  lemma ValidatedJoinRequestKeepsUnique(req: Requester, students: seq<Profile>, joinRequests: map<Uuid, JoinRequest>,
                                        classroom: Uuid, id: Uuid, now: Instant)
    requires UniqueJoinRequests(joinRequests) && id !in joinRequests
    requires ValidateJoinRequest(req, students, joinRequests, Some(classroom)).Ok?
    ensures var student := ProfileOf(students, req).value;
      UniqueJoinRequests(joinRequests[id := NewJoinRequest(id, classroom, student.id, now)])
  {
    var student := ProfileOf(students, req).value;
    var jr := NewJoinRequest(id, classroom, student.id, now);
    var after := joinRequests[id := jr];
    forall i, j | i in after && j in after && i != j
      ensures (after[i].classroom, after[i].student) != (after[j].classroom, after[j].student)
    {
      if i == id {
        assert !(joinRequests[j].classroom == classroom && joinRequests[j].student == student.id);
      } else if j == id {
        assert !(joinRequests[i].classroom == classroom && joinRequests[i].student == student.id);
      }
    }
  }

  // ----- AssignmentSerializer.validate / create -----

  const ResourceRequired := ValidationError("resource_pdf", "Resource PDF is required for training and evaluation.")
  const QuestionPdfRequired := ValidationError("question_pdf", "Question PDF is required in manual mode.")
  const QuestionPdfForbidden := ValidationError("question_pdf", "Do not upload question PDF when using generated mode.")
  const InvalidMode := ValidationError("questionMethod", "Invalid generation mode.")

  /** `AssignmentSerializer.validate`. */
  function ValidateAssignment(questionMethod: Option<string>, questionPdf: Option<string>, resourcePdf: Option<string>)
    : (r: Result<()>)
    ensures !Truthy(resourcePdf) ==> r == Err(ResourceRequired)
    ensures r.Ok? <==> (Truthy(resourcePdf)
                        && ((questionMethod == Some("upload") && Truthy(questionPdf))
                            || (questionMethod == Some("generate") && !Truthy(questionPdf))))
  {
    if !Truthy(resourcePdf) then Err(ResourceRequired)
    else if questionMethod == Some("upload") then
      if !Truthy(questionPdf) then Err(QuestionPdfRequired) else Ok(())
    else if questionMethod == Some("generate") then
      if Truthy(questionPdf) then Err(QuestionPdfForbidden) else Ok(())
    else Err(InvalidMode)
  }

  /** With a resource file, each mode's error names its own field, and any
      mode other than the two (a missing one included) is refused. */
  lemma AssignmentModeErrors(questionMethod: Option<string>, questionPdf: Option<string>, resourcePdf: Option<string>)
    requires Truthy(resourcePdf)
    ensures questionMethod == Some("upload") && !Truthy(questionPdf) ==>
      ValidateAssignment(questionMethod, questionPdf, resourcePdf) == Err(QuestionPdfRequired)
    ensures questionMethod == Some("generate") && Truthy(questionPdf) ==>
      ValidateAssignment(questionMethod, questionPdf, resourcePdf) == Err(QuestionPdfForbidden)
    ensures questionMethod != Some("upload") && questionMethod != Some("generate") ==>
      ValidateAssignment(questionMethod, questionPdf, resourcePdf) == Err(InvalidMode)
  {
  }

  /** The writable fields of an assignment request. */
  datatype AssignmentInput = AssignmentInput(
    classroom: Uuid,
    title: string,
    description: Option<string>,
    resourcePdf: Option<string>,
    questionPdf: Option<string>,
    questionMethod: Option<string>,
    deadline: Instant)

  /** `AssignmentSerializer.create`: the requester's teacher profile as
      teacher (`DoesNotExist` without one), `questions_ready` set for the
      upload mode, and the row inserted; a clashing key is an `IntegrityError`. */
  function CreateAssignment(assignments: map<Uuid, Assignment>, teachers: seq<Profile>, req: Requester,
                            input: AssignmentInput, id: Uuid, now: Instant)
    : (r: (Result<Assignment>, map<Uuid, Assignment>))
    ensures r.0.Err? ==> r.1 == assignments
    ensures r.0.Ok? ==>
      var a := r.0.value;
      r.1 == assignments[id := a] && id !in assignments && a.id == id
      && ProfileOf(teachers, req).Some? && a.teacher == ProfileOf(teachers, req).value.id
      && (a.questionsReady <==> input.questionMethod == Some("upload"))
      && a.questionPdf == input.questionPdf && a.resourcePdf == input.resourcePdf
      && a.questionMethod == input.questionMethod && a.deadline == input.deadline
      && a.status == Some(Draft) && a.ragCollection.None? && a.ragTrained == Some(false) && a.createdAt == now
    ensures ProfileOf(teachers, req).None? ==> r.0 == Err(DoesNotExist("Teacher"))
  {
    match ProfileOf(teachers, req)
    case None => (Err(DoesNotExist("Teacher")), assignments)
    case Some(teacher) =>
      var a := NewAssignment(id, input.classroom, teacher.id, input.title, input.description, input.resourcePdf,
                             input.questionPdf, input.questionMethod, input.deadline, now)
               .(questionsReady := input.questionMethod == Some("upload"));
      if id in assignments then (Err(IntegrityError("duplicate key value violates unique constraint")), assignments)
      else (Ok(a), assignments[id := a])
  }

  /** The `create` method: sets the two keys, then inserts. */
  method AssignmentSerializerCreate(db: Database, req: Requester, input: AssignmentInput, id: Uuid, now: Instant)
    returns (r: Result<Assignment>)
    modifies db`assignments
    ensures (r, db.assignments) == CreateAssignment(old(db.assignments), db.teachers, req, input, id, now)
  {
    var teacher := ProfileOf(db.teachers, req);
    if teacher.None? {
      return Err(DoesNotExist("Teacher"));
    }
    var row := NewAssignment(id, input.classroom, teacher.value.id, input.title, input.description,
                             input.resourcePdf, input.questionPdf, input.questionMethod, input.deadline, now);
    row := row.(questionsReady := input.questionMethod == Some("upload"));
    if id in db.assignments {
      return Err(IntegrityError("duplicate key value violates unique constraint"));
    }
    db.assignments := db.assignments[id := row];
    return Ok(row);
  }

  /** For an assignment that passed validation, `questions_ready` holds
      exactly when a question file was uploaded: generated assignments start
      without questions. */
  lemma ValidatedReadyIffQuestionFile(assignments: map<Uuid, Assignment>, teachers: seq<Profile>, req: Requester,
                                      input: AssignmentInput, id: Uuid, now: Instant)
    requires ValidateAssignment(input.questionMethod, input.questionPdf, input.resourcePdf).Ok?
    requires CreateAssignment(assignments, teachers, req, input, id, now).0.Ok?
    ensures var a := CreateAssignment(assignments, teachers, req, input, id, now).0.value;
      (a.questionsReady <==> Truthy(a.questionPdf)) && Truthy(a.resourcePdf)
      && (a.questionMethod == Some("upload") || a.questionMethod == Some("generate"))
  {
  }

  // ----- StudentAssignmentSerializer.create -----

  /** The writable fields of a submission request: the validated assignment
      and the uploaded file. */
  datatype SubmissionInput = SubmissionInput(assignment: Uuid, submittedFile: Option<string>)

  const AlreadyUploaded := NonField("You\U{2019}ve already uploaded this assignment.")
  const DeadlinePassed := NonField("Deadline has passed. Submission not allowed.")

  /** `StudentAssignment.objects.filter(student=..., assignment=...).exists()`. */
  predicate AlreadySubmitted(subs: map<Uuid, StudentAssignment>, student: Uuid, assignment: Uuid) {
    exists k :: k in subs && subs[k].student == student && subs[k].assignment == assignment
  }

  /** `StudentAssignmentSerializer.create`: the requester's student profile
      (`DoesNotExist` without one), then the duplicate check, then the
      deadline check, then the insert. */
  function Submit(subs: map<Uuid, StudentAssignment>, assignments: map<Uuid, Assignment>, students: seq<Profile>,
                  req: Requester, input: SubmissionInput, id: Uuid, now: Instant)
    : (r: (Result<StudentAssignment>, map<Uuid, StudentAssignment>))
    requires input.assignment in assignments
    ensures r.0.Err? ==> r.1 == subs
    ensures r.0.Ok? ==> r.1 == subs[id := r.0.value] && id !in subs
  {
    match ProfileOf(students, req)
    case None => (Err(DoesNotExist("Student")), subs)
    case Some(student) =>
      if AlreadySubmitted(subs, student.id, input.assignment) then (Err(AlreadyUploaded), subs)
      else if now > assignments[input.assignment].deadline then (Err(DeadlinePassed), subs)
      else if id in subs then (Err(IntegrityError("duplicate key value violates unique constraint")), subs)
      else
        var row := NewStudentAssignment(id, input.assignment, student.id, input.submittedFile)
                   .(status := Submitted, submittedAt := Some(now));
        (Ok(row), subs[id := row])
  }

  /** The `create` method: checks, sets the three keys, then inserts. */
  method StudentAssignmentSerializerCreate(db: Database, req: Requester, input: SubmissionInput, id: Uuid, now: Instant)
    returns (r: Result<StudentAssignment>)
    requires input.assignment in db.assignments
    modifies db`submissions
    ensures (r, db.submissions) == Submit(old(db.submissions), db.assignments, db.students, req, input, id, now)
  {
    var student := ProfileOf(db.students, req);
    if student.None? {
      return Err(DoesNotExist("Student"));
    }
    var assignment := db.assignments[input.assignment];
    if AlreadySubmitted(db.submissions, student.value.id, input.assignment) {
      return Err(AlreadyUploaded);
    }
    if now > assignment.deadline {
      return Err(DeadlinePassed);
    }
    var row := NewStudentAssignment(id, input.assignment, student.value.id, input.submittedFile);
    row := row.(status := Submitted, submittedAt := Some(now));
    if id in db.submissions {
      return Err(IntegrityError("duplicate key value violates unique constraint"));
    }
    db.submissions := db.submissions[id := row];
    return Ok(row);
  }

  /** A second submission is refused as a duplicate, before and whatever the
      deadline says. */
  lemma DuplicateCheckedFirst(subs: map<Uuid, StudentAssignment>, assignments: map<Uuid, Assignment>, students: seq<Profile>,
                              req: Requester, input: SubmissionInput, id: Uuid, now: Instant)
    requires input.assignment in assignments && ProfileOf(students, req).Some?
    requires AlreadySubmitted(subs, ProfileOf(students, req).value.id, input.assignment)
    ensures Submit(subs, assignments, students, req, input, id, now) == (Err(AlreadyUploaded), subs)
  {
  }

  /** A first submission strictly after the deadline is refused. */
  lemma LateSubmissionRejected(subs: map<Uuid, StudentAssignment>, assignments: map<Uuid, Assignment>, students: seq<Profile>,
                               req: Requester, input: SubmissionInput, id: Uuid, now: Instant)
    requires input.assignment in assignments && ProfileOf(students, req).Some?
    requires !AlreadySubmitted(subs, ProfileOf(students, req).value.id, input.assignment)
    requires IsDeadlinePassed(assignments[input.assignment], now)
    ensures Submit(subs, assignments, students, req, input, id, now) == (Err(DeadlinePassed), subs)
  {
  }

  /** An accepted submission is the requester's, for the assignment, with the
      uploaded file, status `submitted` and `submitted_at = now`; it is not
      yet scored and its OCR is pending. It is accepted exactly when the
      requester is a student with no submission for the assignment, the
      deadline has not passed and the key is fresh. */
  lemma SubmissionAccepted(subs: map<Uuid, StudentAssignment>, assignments: map<Uuid, Assignment>, students: seq<Profile>,
                           req: Requester, input: SubmissionInput, id: Uuid, now: Instant)
    requires input.assignment in assignments
    ensures var r := Submit(subs, assignments, students, req, input, id, now);
      (r.0.Ok? <==> ProfileOf(students, req).Some?
                    && !AlreadySubmitted(subs, ProfileOf(students, req).value.id, input.assignment)
                    && !IsDeadlinePassed(assignments[input.assignment], now) && id !in subs)
      && (r.0.Ok? ==>
            var row := r.0.value;
            row.id == id && row.student == ProfileOf(students, req).value.id && row.assignment == input.assignment
            && row.submittedFile == input.submittedFile && row.status == Submitted && row.submittedAt == Some(now)
            && Unscored(row) && row.extractedText.None? && row.ocrStatus == "pending")
  {
  }

  /** Submissions keep one row per (assignment, student) pair, keyed by id. */
  lemma SubmitKeepsUnique(subs: map<Uuid, StudentAssignment>, assignments: map<Uuid, Assignment>, students: seq<Profile>,
                          req: Requester, input: SubmissionInput, id: Uuid, now: Instant)
    requires input.assignment in assignments
    requires UniqueSubmissions(subs) && KeyedById(subs)
    ensures var r := Submit(subs, assignments, students, req, input, id, now);
      UniqueSubmissions(r.1) && KeyedById(r.1)
  {
    var r := Submit(subs, assignments, students, req, input, id, now);
    if r.0.Ok? {
      var row := r.0.value;
      forall i, j | i in r.1 && j in r.1 && i != j
        ensures (r.1[i].assignment, r.1[i].student) != (r.1[j].assignment, r.1[j].student)
      {
        if i == id {
          assert !(subs[j].student == row.student && subs[j].assignment == row.assignment);
        } else if j == id {
          assert !(subs[i].student == row.student && subs[i].assignment == row.assignment);
        }
      }
    }
  }

  /** At the deadline instant itself a submission is still accepted, while
      scheduling the evaluation for that instant is refused as past. */
  lemma DeadlineInstantBoundary(subs: map<Uuid, StudentAssignment>, assignments: map<Uuid, Assignment>, students: seq<Profile>,
                                req: Requester, input: SubmissionInput, id: Uuid, t: CeleryScheduler.Tables)
    requires input.assignment in assignments && ProfileOf(students, req).Some? && id !in subs
    requires !AlreadySubmitted(subs, ProfileOf(students, req).value.id, input.assignment)
    ensures var a := assignments[input.assignment];
      Submit(subs, assignments, students, req, input, id, a.deadline).0.Ok?
      && CeleryScheduler.Schedule(t, a, a.deadline).0.Err?
  {
    CeleryScheduler.PastDeadlineRejected(t, assignments[input.assignment], assignments[input.assignment].deadline);
  }

  // ----- GenerateQuestionsSerializer -----

  const Difficulties: set<string> := {"easy", "moderate", "hard"}

  /** The error of `IntegerField(min_value=1, max_value=50)`, if any. */
  function NumQuestionsError(numQuestions: int): Option<Error> {
    if numQuestions < 1 then Some(ValidationError("num_questions", "Ensure this value is greater than or equal to 1."))
    else if numQuestions > 50 then Some(ValidationError("num_questions", "Ensure this value is less than or equal to 50."))
    else None
  }

  /** The error of the `ChoiceField`, if any. */
  function DifficultyError(difficulty: string): Option<Error> {
    if difficulty in Difficulties then None
    else Some(ValidationError("difficulty", "\"" + difficulty + "\" is not a valid choice."))
  }

  /** The validated data, or every field's error in declaration order. */
  datatype FieldsResult = Validated(numQuestions: int, difficulty: string) | FieldErrors(errors: seq<Error>)

  /** `GenerateQuestionsSerializer`: `num_questions` an integer in 1..50 and
      `difficulty` one of the three choices. Each field is checked, so both
      errors are reported when both fields are wrong. */
  function ValidateGenerateQuestions(numQuestions: int, difficulty: string): (r: FieldsResult)
    ensures r.Validated? <==> 1 <= numQuestions <= 50 && difficulty in Difficulties
    ensures r.Validated? ==> r == Validated(numQuestions, difficulty)
    ensures r.FieldErrors? ==>
      1 <= |r.errors| <= 2
      && (forall e :: e in r.errors ==> e.ValidationError?)
      && ((exists e :: e in r.errors && e.field == "num_questions") <==> !(1 <= numQuestions <= 50))
      && ((exists e :: e in r.errors && e.field == "difficulty") <==> difficulty !in Difficulties)
      && (!(1 <= numQuestions <= 50) ==> r.errors[0].field == "num_questions")
  {
    var errors := (if NumQuestionsError(numQuestions).Some? then [NumQuestionsError(numQuestions).value] else [])
                + (if DifficultyError(difficulty).Some? then [DifficultyError(difficulty).value] else []);
    if errors == [] then Validated(numQuestions, difficulty) else FieldErrors(errors)
  }
}
