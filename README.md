# Classroom grading backend: a Dafny model

This project models the core of a classroom web application's backend. Teachers
create classrooms and assignments, students submit PDF answers, and a
post-deadline pipeline grades the submissions. The model covers:

- **Grading.** `run_rag_grading` scores each pending submission that has a
  file through a RAG (retrieval-augmented generation) scoring service and
  brings 0–100 scores down to 0–10. `finalize_marks` then combines marks and
  correctness into a final mark in [0, 10].
- **Plagiarism.** The payload sent to the plagiarism service, with a short cut
  when fewer than two submissions carry text. The results are written back to
  the submissions in one atomic batch.
- **Scheduling.** The evaluation task is scheduled at the deadline: one clock
  row per deadline time and one uniquely named one-off periodic task per
  assignment.
- **Service clients.** The joining of OCR page texts, the derivation of RAG
  collection names, the service URLs, and the wrapping of transport errors.
- **Question lists.** `normalize_questions` and the numbered, stripped
  question texts that the question PDF draws.
- **Classroom app records.** The datatypes with their defaults, uniqueness
  constraints and deadline properties.
- **Serializers.** The validators and `create` methods for classrooms, join
  requests, assignments, submissions and question generation.
- **Join-request signal.** The `post_save` receiver that enrols an approved
  student and stamps the review time, including its nested save.
- **Student and teacher apps.** The verification check, the pending and
  verified lists, the approve views (PENDING → VERIFIED, plus the user's
  role), the verification request serializers and the permission classes.
- **Users app.** `User.Role`, the role predicates and the `dashboard_data`
  mapping.

Modelling choices:

- **Store.** The database is the class `Store.Database`, with one field per
  table. Tables read by primary key are maps from id to row. Tables searched
  by other columns are sequences.
- **Methods and specifications.** Every operation that changes state in the
  source is a method that names only the tables it writes. Its `ensures`
  ties the new tables and the result to a pure specification function of the
  old tables. The lemmas state the source's properties about those functions.
- **Inputs.** Network services, file access, SHA-256, `json.loads`, Python's
  `float(str)`, `str(q)` on values other than strings and dicts, Django's
  UUID conversion of a lookup value, and `isoformat()` are function-typed
  parameters. The
  clock is an `Instant` parameter, `now`.
- **Scores.** Scores are exact `real`s. Python's `round(x, n)` is round half
  to even on exact values (`Scores.Round`).

How the code behaves in the places where a reader might expect otherwise:

- **RAG failures.** A failed RAG response aborts the whole grading loop. The
  function opens no transaction of its own, so whether the submissions saved
  before the failure keep their scores is up to the caller's transaction: an
  enclosing `atomic` block rolls them back. The model describes the writes the
  loop itself makes and the error it raises.
- **Normalisation.** A score above 10 is divided by 10 and rounded to two
  places.
- **Final mark.** `finalize_marks` weights `marks` and the correctness score.
  `run_rag_grading` also writes `marks` (with the correctness score), so the
  plagiarism marks count only when their save comes after grading. A
  plagiarism score of exactly 0 gives a final mark of 0. The mark is clamped
  before it is rounded, and only `final_score` is written, not the status.
- **Assignment status.** An assignment is DRAFT or ACTIVE. `tasks.py` only
  loads the assignment, so nothing chains the grading steps.
- **Rescheduling.** Scheduling an assignment twice fails on the unique task
  name (a `ValidationError` from `validate_unique()`). No second timer is
  created.

## Model

| member | source | states |
|---|---|---|
| TaskHelpers.ScoreOf | backend/classroom/task_helpers.py:41-44 | a RAG reply yields a score exactly when `success` is truthy and `score` is present and a number or a bool, and then yields that number; a falsy `success` raises `RuntimeError("RAG scoring failed")`, a missing `score` a `KeyError` |
| TaskHelpers.NormaliseRange | backend/classroom/task_helpers.py:46-48 | any score in [0, 100] ends in [0, 10]; a score of at most 10 is kept as it is |
| TaskHelpers.NormaliseExample | backend/classroom/task_helpers.py:33-48 | the documented reply score 78.5 becomes 7.85 |
| TaskHelpers.NormaliseNotMonotone | backend/classroom/task_helpers.py:47-48 | the scale is guessed from the value: 10 stays 10 while 11 becomes 1.1 |
| TaskHelpers.GradeOne | backend/classroom/task_helpers.py:18-48 | a row is skipped exactly when it is graded or has no file; it is written exactly when it is pending with a file and the scorer answered with a usable score, and then with the normalised score; otherwise it fails with the scorer's own error, or else with the error reading the score raised |
| TaskHelpers.UnsuccessfulReplyFails | backend/classroom/task_helpers.py:41-42 | a reply whose `success` is falsy fails the submission with `RuntimeError("RAG scoring failed")` |
| TaskHelpers.RunRagGrading | backend/classroom/task_helpers.py:10-58 | the loop leaves the submission table and the error exactly as the specification `RunRagGradingSpec` of the old table says |
| TaskHelpers.NoCollectionNoWrites | backend/classroom/task_helpers.py:15-16 | without a RAG collection the call raises before any row changes |
| TaskHelpers.RagGradingFrame | backend/classroom/task_helpers.py:18-58 | no row is added or removed; unlisted, graded and file-less rows do not change; a changed row differs only in correctness, marks and status, with correctness = marks and status graded |
| TaskHelpers.RagGradingSplit | backend/classroom/task_helpers.py:18-42 | the loop over `a + b` is the loop over `a`, then, unless it raised, the loop over `b` on the table it left |
| TaskHelpers.FailureStopsLoop | backend/classroom/task_helpers.py:41-42 | a failure on one submission ends the loop with that error, and no later submission is touched |
| TaskHelpers.GradedByScore | backend/classroom/task_helpers.py:50-58 | a scored submission ends graded with `correctness_score` and `marks` both equal to the normalised score |
| TaskHelpers.FinalScore | backend/classroom/task_helpers.py:72-88 | the final mark lies in [0, 10], and is 0 whenever the plagiarism score is 0 |
| TaskHelpers.FinalizeMarks | backend/classroom/task_helpers.py:60-91 | the loop leaves the table equal to `Finalized` of the old table: each graded row of the assignment gets its `FinalScore` |
| TaskHelpers.FinalizedFrame | backend/classroom/task_helpers.py:65-91 | only `final_score` changes, only on the assignment's graded rows, and every mark written lies in [0, 10] |
| TaskHelpers.FinalizedIdempotent | backend/classroom/task_helpers.py:60-91 | finalising twice gives the same table as finalising once |
| TaskHelpers.FinalScoreMonotone | backend/classroom/task_helpers.py:79-88 | higher marks and correctness never lower the final mark |
| TaskHelpers.FinalIsCorrectnessAfterRag | backend/classroom/task_helpers.py:82-88 | once marks equal correctness (as grading leaves them), the final mark is the correctness rounded to two places: the weights sum to one and the plagiarism marks play no part |
| TaskHelpers.FinalOfRagRow | backend/classroom/task_helpers.py:47-51 | a row scored on the 0–100 scale finalises to exactly its normalised score, unless plagiarism scored 0 |
| Scores.RoundHalfEven | backend/classroom/task_helpers.py:48 | rounding to an integer moves a value by at most one half |
| Scores.RoundError | backend/classroom/task_helpers.py:88 | `round(x, n)` lies within half a unit of the n-th decimal of x |
| Scores.RoundMonotone | backend/classroom/task_helpers.py:88 | `round` never swaps the order of two values |
| Scores.RoundIdempotent | backend/classroom/task_helpers.py:48 | rounding twice to the same places is rounding once |
| Scores.RoundWithin | backend/classroom/task_helpers.py:88 | rounding keeps a value inside any interval with integer ends |
| Scores.Clamp | backend/classroom/task_helpers.py:88 | `max(lo, min(x, hi))` lies in [lo, hi] and keeps values already inside |
| PlagiarismPersistence.ToFloat | backend/classroom/utils/plagiarism_persistence.py:41-42 | `float(v)` keeps numbers, and fails exactly on values that are not a number, a bool or a parseable string |
| PlagiarismPersistence.Target | backend/classroom/utils/plagiarism_persistence.py:31-39 | the lookup of a result's id finds a row only when the id converts to a UUID that a submission has; a null id finds no row; an id that does not convert (bad text, a list, an object) is `Invalid` |
| PlagiarismPersistence.ApplyOne | backend/classroom/utils/plagiarism_persistence.py:30-54 | one result keeps the set of rows and changes only `plagiarism_score` and `marks`; an id that converts but names no row, or is null, changes nothing; an id that does not convert raises `ValidationError`; a missing `assignment_id` raises `KeyError` |
| PlagiarismPersistence.SavePlagiarismResults | backend/classroom/utils/plagiarism_persistence.py:5-54 | on success the table is the batch application of the results; on any exception the error is returned and the table is exactly as before (atomic rollback) |
| PlagiarismPersistence.ApplyAllSplit | backend/classroom/utils/plagiarism_persistence.py:30-39 | the results are applied in order: `a + b` is `a`, then `b` |
| PlagiarismPersistence.ApplyAllFrame | backend/classroom/utils/plagiarism_persistence.py:51-54 | a successful batch changes nothing but plagiarism score and marks; the status is untouched |
| PlagiarismPersistence.UnknownIdSkipped | backend/classroom/utils/plagiarism_persistence.py:33-39 | a result whose id is null, or converts to a UUID naming no submission, is skipped; the rest of the batch applies as if it were absent |
| PlagiarismPersistence.MalformedIdAbortsSave | backend/classroom/utils/plagiarism_persistence.py:29-39 | a result whose id does not convert to a UUID, after results that applied, makes the whole save fail with `ValidationError` (and the method then restores every row) |
| PlagiarismPersistence.BadResultFailsBatch | backend/classroom/utils/plagiarism_persistence.py:29-31 | one failing result anywhere fails the whole batch |
| PlagiarismPersistence.MatchedResult | backend/classroom/utils/plagiarism_persistence.py:41-49 | a matched row stores the similarity rounded to 4 places and the marks rounded to 2; `COPIED` stores marks 0; missing fields read as 0 |
| PlagiarismPersistence.StoredIdReachesRow | backend/classroom/utils/plagiarism_persistence.py:35-48 | a result naming a stored assignment by its canonical UUID text reaches that row and stores its similarity rounded to four places there |
| PlagiarismPersistence.StoredWithinBounds | backend/classroom/utils/plagiarism_persistence.py:48-49 | similarity in [0, 1] and marks in [0, 10] stay in those ranges after rounding |
| PlagiarismPersistence.NothingWritten | backend/classroom/utils/plagiarism_persistence.py:24-27 | a falsy `success` raises `ValueError`; a missing `results` is an empty batch that leaves the table as it was |
| PlagClient.Entries | backend/classroom/utils/plag_client.py:24-33 | building succeeds exactly when every submission with text has a submission time, and yields at most one entry per submission |
| PlagClient.EntriesContents | backend/classroom/utils/plag_client.py:25-33 | the entries are exactly those of the submissions with non-empty text, each with that text |
| PlagClient.EntriesAppend | backend/classroom/utils/plag_client.py:24-33 | entries keep submission order: building for `a + b` is building for `a`, then for `b` |
| PlagClient.EntriesOfOne | backend/classroom/utils/plag_client.py:25-33 | one submission contributes nothing without text, fails on a missing time, and otherwise contributes its own entry |
| PlagClient.EntriesJson | backend/classroom/utils/plag_client.py:28-33 | each payload item carries the submission id, student id, text and ISO time of its entry, in order |
| PlagClient.CollectAssignments | backend/classroom/utils/plag_client.py:19-33 | the loop yields the JSON of `Entries`, or its error |
| PlagClient.RunPlagiarismCheck | backend/classroom/utils/plag_client.py:11-52 | the method returns the result and the payload posted that the specification `PlagiarismCheck` gives |
| PlagClient.FewEntriesNoCall | backend/classroom/utils/plag_client.py:35-40 | fewer than two entries return `{"success": True, "results": []}` and post nothing |
| PlagClient.CallShape | backend/classroom/utils/plag_client.py:19-52 | the payload names the assignment and carries the entries; a reply comes back unchanged; a transport failure becomes `RuntimeError` with the fixed prefix |
| CeleryScheduler.TaskName | backend/classroom/utils/celery_scheduler.py:18 | the task name is the fixed prefix followed by the assignment id |
| CeleryScheduler.TaskArgs | backend/classroom/utils/celery_scheduler.py:25 | the arguments are the JSON list holding the id |
| CeleryScheduler.TaskNameInjective | backend/classroom/utils/celery_scheduler.py:18-25 | two assignments share a task name, or arguments, exactly when they are the same |
| CeleryScheduler.FindClocked | backend/classroom/utils/celery_scheduler.py:14-16 | the lookup finds a clock row holding the time, or reports that none does |
| CeleryScheduler.GetOrCreateClocked | backend/classroom/utils/celery_scheduler.py:14-16 | the key returned holds the deadline; a row is added exactly when none held it |
| CeleryScheduler.ScheduleAssignmentEvaluation | backend/classroom/utils/celery_scheduler.py:5-26 | the method leaves both tables, and returns the result, that the specification `Schedule` gives |
| CeleryScheduler.PastDeadlineRejected | backend/classroom/utils/celery_scheduler.py:11-12 | a deadline at or before now raises `ValueError` and writes nothing, even at the instant itself, where the deadline has not yet passed |
| CeleryScheduler.ScheduleSuccess | backend/classroom/utils/celery_scheduler.py:20-26 | success appends exactly one one-off task for the evaluation job, with the id as its argument, bound to a clock row at the deadline; at most one clock row is added |
| CeleryScheduler.ScheduleKeepsUnique | backend/classroom/utils/celery_scheduler.py:14-26 | task names and clock times stay unique |
| CeleryScheduler.SameDeadlineSharesClock | backend/classroom/utils/celery_scheduler.py:14-16 | two assignments with the same deadline share one clock row |
| CeleryScheduler.RescheduleFails | backend/classroom/utils/celery_scheduler.py:20-26 | a second schedule for the same assignment, at any instant before the deadline, fails with `ValidationError` on the unique name and changes nothing |
| OcrClient.Join | backend/classroom/utils/ocr_client.py:17 | joining no parts gives "" and one part gives that part |
| OcrClient.JoinAppend | backend/classroom/utils/ocr_client.py:17 | the join keeps page order: two runs of pages join with one separator between them |
| OcrClient.JoinLength | backend/classroom/utils/ocr_client.py:17 | the length of the text is the sum of the page text lengths plus one separator per gap between pages |
| OcrClient.JoinCons | backend/classroom/utils/ocr_client.py:17 | the text is the first page text, one separator, then the join of the remaining pages |
| OcrClient.PageTexts | backend/classroom/utils/ocr_client.py:17 | one text per page, that page's `extracted_text` or ""; failure exactly when a page is not an object or its text is not a string, and a page that is not an object wins with `AttributeError` because the list is built before `join` checks it |
| OcrClient.ExtractTextFromPdfFile | backend/classroom/utils/ocr_client.py:6-18 | a service error propagates unchanged; on success the raw reply is returned with the text joined from it |
| OcrClient.MissingPages | backend/classroom/utils/ocr_client.py:16-17 | no `pages` key, or no pages, gives the empty text |
| OcrClient.PageWithoutText | backend/classroom/utils/ocr_client.py:17 | a page without `extracted_text` contributes "" |
| OcrClient.TwoPages | backend/classroom/utils/ocr_client.py:16-17 | two pages give their texts separated by one blank line |
| RagClient.CollectionNameShape | backend/classroom/utils/rag_client.py:10-15 | the name is `assign_` and the first 16 hex digits of the hash: 23 characters, within 63, all lower-case letters, digits or `_` |
| RagClient.CollectionNameDeterministic | backend/classroom/utils/rag_client.py:14-15 | two ids get the same name exactly when the first 16 hex digits of their hashes agree |
| RagClient.EndpointsDistinct | backend/classroom/utils/rag_client.py:6-8 | train and score are `/train` and `/score` under the service root and differ; the delete URL extends the root |
| RagClient.TrainingErrors | backend/classroom/utils/rag_client.py:17-43 | a training reply comes back unchanged; a transport failure becomes `RuntimeError` with the training prefix; other errors pass through |
| RagClient.TrainingUnreadableFile | backend/classroom/utils/rag_client.py:23-24 | a file that cannot be opened fails with its own error, and nothing is sent |
| RagClient.ScoringErrors | backend/classroom/utils/rag_client.py:77-95 | a scoring reply comes back unchanged; a transport failure becomes `RuntimeError` with the scoring prefix and never escapes as one |
| RagClient.DeleteUnwrapped | backend/classroom/utils/rag_client.py:45-51 | deletion sends one DELETE to `/collection/<name>` under the root and returns the reply or the error unchanged, so a transport failure is not wrapped |
| RagClient.GenerateUnwrapped | backend/classroom/utils/rag_client.py:53-75 | generation posts a JSON body holding the collection, the count and the difficulty to `/generate-questions`, and returns the reply or the error unchanged |
| GenerateQuestions.ParsedOrWrapped | backend/classroom/utils/generate_questions_pdf.py:12-16 | a string is its JSON parse when that succeeds, and `[{"question": s}]` otherwise |
| GenerateQuestions.NormalizeUnparsedString | backend/classroom/utils/generate_questions_pdf.py:11-16 | a string that does not parse becomes one question with that text |
| GenerateQuestions.NormalizeFlattensOnce | backend/classroom/utils/generate_questions_pdf.py:30-35 | a one-element list holding a list loses exactly one level |
| GenerateQuestions.NormalizeCasesChain | backend/classroom/utils/generate_questions_pdf.py:11-37 | the three cases apply in sequence: a string parsing to a one-string list is parsed again, and a list holding one list is then flattened |
| GenerateQuestions.NormalizeOthersUnchanged | backend/classroom/utils/generate_questions_pdf.py:10-37 | an input matching none of the cases comes back unchanged |
| GenerateQuestions.StripSpan | backend/classroom/utils/generate_questions_pdf.py:65-67 | the kept bounds have only whitespace outside them and no whitespace at their ends |
| GenerateQuestions.Strip | backend/classroom/utils/generate_questions_pdf.py:65-67 | `strip()` is the slice between those bounds, and neither starts nor ends with whitespace |
| GenerateQuestions.StripIdempotent | backend/classroom/utils/generate_questions_pdf.py:65-67 | stripping twice is stripping once; an all-whitespace text strips to "" |
| GenerateQuestions.QuestionText | backend/classroom/utils/generate_questions_pdf.py:64-67 | a dict gives its stripped `question` ("" when absent) and fails when that is not a string; a string gives itself stripped; any other value gives its stripped `str` |
| GenerateQuestions.StringQuestionsDrawn | backend/classroom/utils/generate_questions_pdf.py:63-67 | a plain list of strings is drawn as those strings, stripped, numbered from 1 in list order |
| GenerateQuestions.NumberedOk | backend/classroom/utils/generate_questions_pdf.py:63-67 | numbering fails exactly when one of the questions' texts fails |
| GenerateQuestions.NumberedValues | backend/classroom/utils/generate_questions_pdf.py:63-72 | questions are numbered consecutively from the start, in list order, each with its own text |
| GenerateQuestions.DrawQuestions | backend/classroom/utils/generate_questions_pdf.py:63-72 | the loop yields the numbering from 1 that `Numbered` specifies |
| GenerateQuestions.NumberQuestions | backend/classroom/utils/generate_questions_pdf.py:40-72 | the questions drawn are the normalised input, iterated and numbered from 1 |
| ClassroomModels.NewStudentAssignmentDefaults | backend/classroom/models.py:164-174 | a new submission is pending, with OCR pending, no text, no time and every score null |
| ClassroomModels.NewJoinRequestDefaults | backend/classroom/models.py:39-41 | a new join request is pending, not reviewed, and requested now |
| ClassroomModels.NewAssignmentDefaults | backend/classroom/models.py:108-127 | a new assignment is a draft created now with the given deadline, whose questions are not ready and whose RAG collection, training flag and training time are unset |
| ClassroomModels.IsPastDeadline | backend/classroom/models.py:182-184 | a submission's deadline test is its assignment's `is_deadline_passed`, and fails when the assignment is missing |
| ClassroomSerializers.ValidateClassroom | backend/classroom/serializers.py:17-38 | with no request anything passes; otherwise failure exactly when the requester has no teacher profile, or the non-empty code is on another of that teacher's classrooms (the one updated excluded) |
| ClassroomSerializers.ValidatedClassroomKeepsCodesUnique | backend/classroom/serializers.py:26-36 | saving a validated classroom, new or updated, keeps subject codes unique per teacher |
| ClassroomSerializers.ClassroomChecksOrder | backend/classroom/serializers.py:18-28 | the teacher check comes first; an empty code always passes |
| ClassroomSerializers.ValidateJoinRequest | backend/classroom/serializers.py:58-72 | success exactly for a student requester, a given classroom and no existing request for the pair, with the errors in the source's order |
| ClassroomSerializers.ValidatedJoinRequestKeepsUnique | backend/classroom/serializers.py:68-70 | inserting a validated request keeps one request per (classroom, student) |
| ClassroomSerializers.ValidateAssignment | backend/classroom/serializers.py:203-233 | a missing resource file is refused first; success exactly for upload with a question file or generate without one |
| ClassroomSerializers.AssignmentModeErrors | backend/classroom/serializers.py:214-231 | each mode's error names its own field; any other or missing mode is an invalid mode |
| ClassroomSerializers.CreateAssignment | backend/classroom/serializers.py:235-244 | the teacher is the requester's profile (`DoesNotExist` without one); `questions_ready` holds exactly for upload; other fields as given or at their defaults; a clashing key changes nothing |
| ClassroomSerializers.AssignmentSerializerCreate | backend/classroom/serializers.py:235-244 | the method leaves the table and returns the result that `CreateAssignment` gives |
| ClassroomSerializers.ValidatedReadyIffQuestionFile | backend/classroom/serializers.py:203-244 | for a validated assignment, questions are ready exactly when a question file was uploaded |
| ClassroomSerializers.Submit | backend/classroom/serializers.py:301-317 | a failure leaves the submissions as they were; success inserts one row under a fresh id |
| ClassroomSerializers.StudentAssignmentSerializerCreate | backend/classroom/serializers.py:301-317 | the method leaves the table and returns the result that `Submit` gives |
| ClassroomSerializers.DuplicateCheckedFirst | backend/classroom/serializers.py:305-311 | a second submission is refused as a duplicate, whatever the deadline |
| ClassroomSerializers.LateSubmissionRejected | backend/classroom/serializers.py:310-311 | a first submission strictly after the deadline is refused |
| ClassroomSerializers.SubmissionAccepted | backend/classroom/serializers.py:302-317 | acceptance exactly for a student's first, timely submission under a fresh key; the row is the requester's, status submitted, `submitted_at = now`, unscored |
| ClassroomSerializers.SubmitKeepsUnique | backend/classroom/serializers.py:305-307 | submissions keep one row per (assignment, student), keyed by id |
| ClassroomSerializers.DeadlineInstantBoundary | backend/classroom/serializers.py:310-311 | at the deadline instant a submission is accepted, while scheduling for that instant is refused |
| ClassroomSerializers.ValidateGenerateQuestions | backend/classroom/serializers.py:358-362 | accepted exactly for 1 ≤ n ≤ 50 and a difficulty among easy, moderate and hard, with the data unchanged; otherwise one `ValidationError` per wrong field, the number's first, so both are reported when both are wrong |
| JoinRequestSignals.GetOrCreateEnrollment | backend/classroom/signals.py:9-12 | the pair is enrolled afterwards; an existing enrolment is kept as is; otherwise one row is appended; pairs stay unique |
| JoinRequestSignals.Reviewed | backend/classroom/signals.py:13-15 | only `reviewed_at` changes, only when approved and unset, and an approved request ends with a review time |
| JoinRequestSignals.SaveJoinRequest | backend/classroom/signals.py:6-15 | a save stores the reviewed row, enrols an approved student, and runs the receiver `HandlerRuns` times |
| JoinRequestSignals.HandleJoinRequest | backend/classroom/signals.py:6-15 | the receiver, with its nested save, leaves the same tables and run count |
| JoinRequestSignals.ApprovalEnrolls | backend/classroom/signals.py:8-12 | an approved request leaves the student enrolled, with no duplicate pair |
| JoinRequestSignals.RepeatedApprovalIdempotent | backend/classroom/signals.py:9-12 | approving the same pair again adds no enrolment |
| JoinRequestSignals.NonApprovedNoChange | backend/classroom/signals.py:8 | a request that is not approved changes nothing and runs the receiver once |
| JoinRequestSignals.ReviewTimeSetOnce | backend/classroom/signals.py:13-15 | an existing review time is kept, reviewing twice is reviewing once, and the nested save re-enters the receiver at most once |
| Profiles.Saved | backend/student/models.py:35 | a student save stamps `requested_at` with now and changes nothing else; a teacher save changes nothing |
| Profiles.FindByEmail | backend/student/views.py:71 | the lookup finds the profile with the email, or reports that none has it |
| Profiles.FindByUser | backend/classroom/serializers.py:22 | the one-to-one lookup finds the profile of the user, or reports that the user has none |
| Profiles.ProfileOf | backend/classroom/serializers.py:22 | the requester's profile through the one-to-one link, None exactly for an anonymous requester or one without a profile |
| Profiles.VerificationCheck | backend/student/views.py:32-45 | `found` holds exactly when a profile has the email, and then the status is that profile's; otherwise `NOT_FOUND`; the teacher app does the same at backend/teacher/views.py:33-46 |
| Profiles.ListByStatus | backend/student/views.py:47-65 | the list holds exactly the rows with the status, newest request first, each at most as often as in the table; the teacher app does the same at backend/teacher/views.py:48-64 |
| Profiles.WithStatus | backend/student/views.py:51 | `filter(status=...)` keeps only rows of the table with that status, and never more rows than the table has |
| Profiles.SortNewestFirst | backend/student/views.py:51 | `order_by('-requested_at')` is a permutation in descending request order |
| Profiles.ValidateEmail | backend/student/serializers.py:13-17 | with a request, the email is accepted exactly when it is the account's; the teacher app does the same at backend/teacher/serializers.py:10-14 |
| Profiles.Validate | backend/student/serializers.py:19-23 | refused exactly when there is a requester who already has a profile of the kind; the teacher app does the same at backend/teacher/serializers.py:16-20 |
| Profiles.NewProfileFields | backend/student/serializers.py:25-31 | a created profile belongs to the requester, carries the account email, and is PENDING, unverified and a declared status; the teacher app does the same at backend/teacher/serializers.py:22-28 |
| Profiles.InsertKeepsUnique | backend/student/models.py:20-26 | inserting a row that clashes on no unique column keeps them unique |
| Profiles.ApprovedProfile | backend/student/views.py:79-82 | the approved row is verified, VERIFIED and approved now, with the same id, user, email and phone |
| Profiles.Approve | backend/student/views.py:67-91 | the approve view keeps both table sizes and answers ALREADY VERIFIED or VERIFIED; an error leaves the users unchanged; the teacher app does the same at backend/teacher/views.py:66-91 |
| Profiles.ApproveUnknown | backend/student/views.py:70-71 | no email, or no profile with it, raises `DoesNotExist` and changes nothing |
| Profiles.ApproveVerifiedNoChange | backend/student/views.py:72-78 | a verified profile is answered ALREADY VERIFIED and nothing changes; the teacher app does the same at backend/teacher/views.py:71-77 |
| Profiles.ApproveUnverifiedProfile | backend/student/views.py:79-82 | approving rewrites that profile alone, verified, VERIFIED and approved now; the teacher app does the same at backend/teacher/views.py:78-81 |
| Profiles.ApproveUnverifiedUser | backend/student/views.py:83-85 | the user with the email then gets the kind's role and no other user changes; without one the call fails after the profile was saved; the teacher app does the same at backend/teacher/views.py:82-84 |
| Profiles.ApproveIdempotent | backend/student/views.py:71-85 | once a call found the profile, a later call answers ALREADY VERIFIED and changes nothing |
| Profiles.ApproveKeepsUnique | backend/student/views.py:79-82 | approval keeps the unique columns unique, and the check then reports an approved profile as VERIFIED |
| Profiles.CreateProfile | backend/student/serializers.py:25-31 | `create` appends exactly the new row, or fails with `IntegrityError` and changes nothing |
| Profiles.CreateProfileVisible | backend/student/serializers.py:19-31 | a created profile keeps the columns unique and is then reported PENDING by the check; a validated requester has no profile yet |
| StudentApp.StudentApprove | backend/student/views.py:67-91 | the method leaves the student and user tables, and returns the response, that `Approve` gives |
| StudentApp.CreateStudent | backend/student/serializers.py:25-31 | the method leaves the student table and returns the result that `CreateProfile` gives |
| TeacherApp.TeacherApprove | backend/teacher/views.py:66-91 | the method leaves the teacher and user tables, and returns the response, that `Approve` gives |
| TeacherApp.CreateTeacher | backend/teacher/serializers.py:22-28 | the method leaves the teacher table and returns the result that `CreateProfile` gives |
| UserModels.NewUser | backend/users/models.py:16-21 | a new user has the default role USER, a declared choice |
| UserModels.RolePredicatesExclusive | backend/users/models.py:33-43 | at most one of `is_admin`, `is_manager`, `is_regular_user` holds, and one holds exactly for a declared role |
| UserModels.ApprovedRolesUndeclared | backend/users/models.py:10-13 | the STUDENT and TEACHER roles the approve views write are not declared choices |
| UserModels.FindUserByEmail | backend/student/views.py:83 | the lookup finds the user with the email, or reports that none has it |
| UserModels.PermissionsAgreeWithRoles | backend/student/views.py:12-22 | a permission holds for an authenticated user with its role; no requester passes two different role permissions; the teacher app does the same at backend/teacher/views.py:13-23 |
| UserViews.DashboardData | backend/users/views.py:19-49 | the response has exactly the five keys, the serialized user and the role, and the type, message and permissions of the user's branch |
| UserViews.UndeclaredRolesGetUserDashboard | backend/users/views.py:44-47 | STUDENT and TEACHER users get the plain user dashboard; only admins get `manage_users` |

The functions below are definitions with no contract of their own. Each is
specified by the members in the table that state properties of it or of
the parts it is built from (for a loop, the step it repeats):

- TaskHelpers.Normalise (backend/classroom/task_helpers.py:46-48): NormaliseRange, NormaliseExample, NormaliseNotMonotone.
- TaskHelpers.RagGrading (backend/classroom/task_helpers.py:18-58): GradeOne, RagGradingFrame, RagGradingSplit, FailureStopsLoop, GradedByScore, RunRagGrading.
- TaskHelpers.RunRagGradingSpec (backend/classroom/task_helpers.py:10-58): NoCollectionNoWrites, RunRagGrading.
- TaskHelpers.Finalized (backend/classroom/task_helpers.py:60-91): FinalizeMarks, FinalizedFrame, FinalizedIdempotent.
- PlagiarismPersistence.SaveResults (backend/classroom/utils/plagiarism_persistence.py:5-54): NothingWritten, MalformedIdAbortsSave, SavePlagiarismResults.
- PlagiarismPersistence.ApplyAll (backend/classroom/utils/plagiarism_persistence.py:29-54): ApplyAllSplit, ApplyAllFrame, UnknownIdSkipped, BadResultFailsBatch.
- PlagClient.PlagiarismCheck (backend/classroom/utils/plag_client.py:11-52): FewEntriesNoCall, CallShape, RunPlagiarismCheck.
- PlagClient.Payload (backend/classroom/utils/plag_client.py:19-33): CallShape, EntriesJson.
- CeleryScheduler.Schedule (backend/classroom/utils/celery_scheduler.py:5-26): PastDeadlineRejected, ScheduleSuccess, ScheduleKeepsUnique, SameDeadlineSharesClock, RescheduleFails, ScheduleAssignmentEvaluation.
- OcrClient.TextOf (backend/classroom/utils/ocr_client.py:16-17): PageTexts, JoinCons, JoinLength, MissingPages, TwoPages, ExtractTextFromPdfFile.
- RagClient.CollectionName (backend/classroom/utils/rag_client.py:10-15): CollectionNameShape, CollectionNameDeterministic.
- RagClient.TrainRagFromPdf (backend/classroom/utils/rag_client.py:17-43): TrainingErrors, TrainingUnreadableFile.
- RagClient.ScoreAssignmentText (backend/classroom/utils/rag_client.py:77-95): ScoringErrors.
- RagClient.DeleteRagCollection (backend/classroom/utils/rag_client.py:45-51): DeleteUnwrapped.
- RagClient.GenerateQuestionsFromRag (backend/classroom/utils/rag_client.py:53-75): GenerateUnwrapped.
- GenerateQuestions.NormalizeQuestions (backend/classroom/utils/generate_questions_pdf.py:10-37): ParsedOrWrapped, NormalizeUnparsedString, NormalizeFlattensOnce, NormalizeCasesChain, NormalizeOthersUnchanged, NumberQuestions.
- ClassroomModels.IsDeadlinePassed (backend/classroom/models.py:141-143): IsPastDeadline, LateSubmissionRejected.
- Profiles.HasProfile (backend/student/serializers.py:21): ProfileOf, Validate.
- UserModels.IsAdmin, UserModels.IsManager, UserModels.IsRegularUser (backend/users/models.py:33-43): RolePredicatesExclusive.
- UserModels.HasRole (backend/student/views.py:12-22): PermissionsAgreeWithRoles.
- UserViews.DashboardFor (backend/users/views.py:21-49): DashboardData, UndeclaredRolesGetUserDashboard.
- Scores.Round (backend/classroom/task_helpers.py:48, backend/classroom/task_helpers.py:88, backend/classroom/utils/plagiarism_persistence.py:48-49): RoundError, RoundMonotone, RoundIdempotent, RoundWithin.

## Left out

- The frontend, URL routing, the admin site, `users/adapters.py` and `users/serializers.py` are outside the modelled backend core.
- `backend/classroom/tasks.py` and the queue configuration are left out because the scheduled task only loads the assignment; the model has no orchestrator state machine.
- The HTTP calls, open files and timeouts in the OCR, RAG and plagiarism clients are oracles, so nothing about the services themselves is modelled. `score_assignment_pdf` is not part of this model and is an oracle. `quiz_client.py` is not part of this model, because it is only an HTTP wrapper.
- Drawing the question PDF (canvas, coordinates, `textwrap`, page breaks, the output file name) is left out. Only the numbered question texts are modelled.
- SHA-256, `json.loads`, Python's `float(str)`, `str()` on a JSON value and `isoformat()` are function parameters, because their algorithms are beside the point.
- Floating point is not modelled. Scores are exact reals and `round` is exact round half to even, so representation error and float ties are not captured.
- GenerateQuestions.Strip: removes ASCII whitespace only, not the other Unicode whitespace Python's `strip()` also removes.
- Row locking (`select_for_update`) and concurrency are left out. Each operation runs alone, and a queryset is a sequence of ids in iteration order.
- TaskHelpers.RunRagGrading: the transaction around the loop is not modelled. `select_for_update()` (backend/classroom/task_helpers.py:18) needs one: outside a transaction it raises `TransactionManagementError`, except on SQLite, and inside the caller's `atomic` block the `RuntimeError` rolls back the earlier saves. The model keeps the saves made before the failure, which is what the loop writes before the caller's transaction decides.
- TaskHelpers.RunRagGrading: ids that name no row, or that repeat, are taken as the queryset gives them. The queryset's filter itself is the caller's and is not modelled.
- TaskHelpers.FinalizeMarks: visits the selected rows in an arbitrary order. The result does not depend on that order.
- The generic views of `backend/classroom/views.py` are not part of this model. They pass a `User` where the models expect a teacher or student profile (`teacher=request.user`, `student=request.user`), so the lemmas about saved rows take the saved row as a parameter.
- ClassroomSerializers.ValidateClassroom: takes the subject code of the request data only, so a partial update without `subject_code` is checked against nothing.
- Field-level input validation by the serializer framework (types, UUID syntax, lengths, required fields) is left out, outside `GenerateQuestionsSerializer`. Ids in the tables are their canonical text.
- `User.updated_at`, `created_at` stamps other than those named above, and the personal fields of profiles are left out, because no modelled code reads them.
- JoinRequestSignals.SaveJoinRequest: the nested save uses the same instant `now` as the outer one.
- `AssignmentDraftCreateSerializer`, `GeneratedAssignmentCreateSerializer` and the read-only serializers are left out, because they are field plumbing outside the modelled validators.
- Profiles functions serve both the student and the teacher app through the `ProfileKind` argument. The teacher app's differences are modelled: fewer status choices, no `auto_now` on `requested_at`, and the TEACHER role.
- Profiles.ListByStatus: puts rows with a null `requested_at` last; SQLite and MySQL order `-requested_at` this way, PostgreSQL puts them first. The database settings are not part of this model. Teacher rows can have a null time, because the teacher model has no `auto_now`.
