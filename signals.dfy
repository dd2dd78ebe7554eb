/** The `post_save` receiver of join requests: approving a request enrols the
    student, and the first approval stamps the review time through a second
    save, which runs the receiver once more. */
module JoinRequestSignals {
  import opened Base
  import opened ClassroomModels
  import opened Store

  /** `StudentClassroom.objects.get_or_create(classroom=..., student=...)`:
      the enrolment table afterwards. */
  function GetOrCreateEnrollment(rows: seq<StudentClassroom>, classroom: Uuid, student: Uuid, now: Instant)
    : (r: seq<StudentClassroom>)
    ensures Enrolled(r, classroom, student)
    ensures Enrolled(rows, classroom, student) ==> r == rows
    ensures |rows| <= |r| <= |rows| + 1 && r[..|rows|] == rows
    ensures forall k :: |rows| <= k < |r| ==> r[k] == StudentClassroom(classroom, student, now)
    ensures UniqueEnrollments(rows) ==> UniqueEnrollments(r)
  {
    if Enrolled(rows, classroom, student) then rows
    else
      var r := rows + [StudentClassroom(classroom, student, now)];
      assert r[|rows|].classroom == classroom && r[|rows|].student == student;
      r
  }

  /** The row as it is left once the receiver is done: an approved request
      without a review time gets `now`. */
  function Reviewed(jr: JoinRequest, now: Instant): (r: JoinRequest)
    ensures r.(reviewedAt := jr.reviewedAt) == jr
    ensures jr.reviewedAt.Some? || jr.status != JoinApproved ==> r == jr
    ensures jr.status == JoinApproved ==> r.reviewedAt.Some?
  {
    if jr.status == JoinApproved && jr.reviewedAt.None? then jr.(reviewedAt := Some(now)) else jr
  }

  /** The enrolment table once the receiver is done. */
  function EnrollmentsAfter(rows: seq<StudentClassroom>, jr: JoinRequest, now: Instant): seq<StudentClassroom> {
    if jr.status == JoinApproved then GetOrCreateEnrollment(rows, jr.classroom, jr.student, now) else rows
  }

  /** How many times `handle_join_request` runs for one save of `jr`. */
  function HandlerRuns(jr: JoinRequest): nat {
    if jr.status == JoinApproved && jr.reviewedAt.None? then 2 else 1
  }

  /** `instance.save()`: writes the row, then runs the receiver. Returns the
      number of receiver runs. */
  method SaveJoinRequest(db: Database, jr: JoinRequest, now: Instant) returns (runs: nat)
    modifies db`joinRequests, db`enrollments
    decreases if jr.reviewedAt.None? then 1 else 0, 1
    ensures db.joinRequests == old(db.joinRequests)[jr.id := Reviewed(jr, now)]
    ensures db.enrollments == EnrollmentsAfter(old(db.enrollments), jr, now)
    ensures runs == HandlerRuns(jr)
  {
    db.joinRequests := db.joinRequests[jr.id := jr];
    runs := HandleJoinRequest(db, jr, now);
  }

  /** `handle_join_request(sender, instance)`, run after `instance` was saved. */
  method HandleJoinRequest(db: Database, instance: JoinRequest, now: Instant) returns (runs: nat)
    requires instance.id in db.joinRequests && db.joinRequests[instance.id] == instance
    modifies db`joinRequests, db`enrollments
    decreases if instance.reviewedAt.None? then 1 else 0, 0
    ensures db.joinRequests == old(db.joinRequests)[instance.id := Reviewed(instance, now)]
    ensures db.enrollments == EnrollmentsAfter(old(db.enrollments), instance, now)
    ensures runs == HandlerRuns(instance)
  {
    runs := 1;
    if instance.status == JoinApproved {
      db.enrollments := GetOrCreateEnrollment(db.enrollments, instance.classroom, instance.student, now);
      if instance.reviewedAt.None? {
        var reviewed := instance.(reviewedAt := Some(now));
        var nested := SaveJoinRequest(db, reviewed, now);
        runs := runs + nested;
      }
    }
  }

  /** An approved request leaves its student enrolled in its classroom, and
      the enrolment table stays free of duplicate pairs. */
  lemma ApprovalEnrolls(rows: seq<StudentClassroom>, jr: JoinRequest, now: Instant)
    requires jr.status == JoinApproved
    ensures Enrolled(EnrollmentsAfter(rows, jr, now), jr.classroom, jr.student)
    ensures UniqueEnrollments(rows) ==> UniqueEnrollments(EnrollmentsAfter(rows, jr, now))
  {
  }

  /** Approving the same pair again, at any later time, adds nothing. */
  lemma RepeatedApprovalIdempotent(rows: seq<StudentClassroom>, jr: JoinRequest, again: JoinRequest, t1: Instant, t2: Instant)
    requires jr.status == JoinApproved && again.classroom == jr.classroom && again.student == jr.student
    ensures var once := EnrollmentsAfter(rows, jr, t1);
      EnrollmentsAfter(once, again, t2) == once && |once| <= |rows| + 1
  {
  }

  /** A request that is not approved changes neither table beyond its own row. */
  lemma NonApprovedNoChange(rows: seq<StudentClassroom>, jr: JoinRequest, now: Instant)
    requires jr.status != JoinApproved
    ensures EnrollmentsAfter(rows, jr, now) == rows && Reviewed(jr, now) == jr && HandlerRuns(jr) == 1
  {
  }

  /** The review time is written once: an existing one is kept, and a second
      pass over the stamped row changes nothing, so the nested save re-enters
      the receiver at most once. */
  lemma ReviewTimeSetOnce(jr: JoinRequest, t1: Instant, t2: Instant)
    ensures jr.reviewedAt.Some? ==> Reviewed(jr, t1).reviewedAt == jr.reviewedAt
    ensures Reviewed(Reviewed(jr, t1), t2) == Reviewed(jr, t1)
    ensures HandlerRuns(Reviewed(jr, t1)) == 1 && HandlerRuns(jr) <= 2
  {
  }
}
