/** The state-changing views and serializer of the teacher app: approving a
    teacher and creating a teacher verification request. The check view, the
    lists and the permission classes are the pure functions of `Profiles`
    and `UserModels`. */
module TeacherApp {
  import opened Base
  import opened UserModels
  import opened Profiles
  import opened Store

  /** `TeacherApprove.post`: looks the teacher up by the posted email, answers
      `ALREADY VERIFIED` for a verified one, otherwise saves it approved and
      then gives the user with that email the TEACHER role. */
  method TeacherApprove(db: Database, email: Option<string>, now: Instant) returns (r: Result<ApproveResponse>)
    modifies db`teachers, db`users
    ensures (r, db.teachers, db.users) == Approve(TeacherKind, old(db.teachers), old(db.users), email, now)
  {
    if email.None? {
      return Err(DoesNotExist("Teacher"));
    }
    var found := FindByEmail(db.teachers, email.value);
    if found.None? {
      return Err(DoesNotExist("Teacher"));
    }
    var i := found.value;
    var teacher := db.teachers[i];
    if teacher.verified {
      return Ok(ApproveResponse("ALREADY VERIFIED", "Teacher already approved."));
    }
    teacher := teacher.(verified := true, status := VERIFIED, approvedAt := Some(now));
    db.teachers := db.teachers[i := Saved(TeacherKind, teacher, now)];
    var account := FindUserByEmail(db.users, email.value);
    if account.None? {
      return Err(DoesNotExist("User"));
    }
    var j := account.value;
    db.users := db.users[j := db.users[j].(role := TEACHER)];
    return Ok(ApproveResponse(VERIFIED, "Teacher approved"));
  }

  /** `TeacherSerializer.create`: fills in the requester, the account email,
      `PENDING` and unverified, then inserts the row. */
  method CreateTeacher(db: Database, user: User, input: ProfileInput, id: Uuid, now: Instant) returns (r: Result<Profile>)
    modifies db`teachers
    ensures (r, db.teachers) == CreateProfile(TeacherKind, old(db.teachers), user, input, id, now)
  {
    var row := Profile(id, user.id, user.email, input.phoneNo, PENDING, false, input.requestedAt, input.approvedAt);
    row := Saved(TeacherKind, row, now);
    if !CanInsert(db.teachers, row) {
      return Err(IntegrityError("duplicate key value violates unique constraint"));
    }
    db.teachers := db.teachers + [row];
    return Ok(row);
  }
}
