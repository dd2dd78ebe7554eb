/** The state-changing views and serializer of the student app: approving a
    student and creating a student verification request. The check view, the
    lists and the permission classes are the pure functions of `Profiles`
    and `UserModels`. */
module StudentApp {
  import opened Base
  import opened UserModels
  import opened Profiles
  import opened Store

  /** `StudentApprove.post`: looks the student up by the posted email, answers
      `ALREADY VERIFIED` for a verified one, otherwise saves it approved and
      then gives the user with that email the STUDENT role. */
  method StudentApprove(db: Database, email: Option<string>, now: Instant) returns (r: Result<ApproveResponse>)
    modifies db`students, db`users
    ensures (r, db.students, db.users) == Approve(StudentKind, old(db.students), old(db.users), email, now)
  {
    if email.None? {
      return Err(DoesNotExist("Student"));
    }
    var found := FindByEmail(db.students, email.value);
    if found.None? {
      return Err(DoesNotExist("Student"));
    }
    var i := found.value;
    var student := db.students[i];
    if student.verified {
      return Ok(ApproveResponse("ALREADY VERIFIED", "Student already approved."));
    }
    student := student.(verified := true, status := VERIFIED, approvedAt := Some(now));
    db.students := db.students[i := Saved(StudentKind, student, now)];
    var account := FindUserByEmail(db.users, email.value);
    if account.None? {
      return Err(DoesNotExist("User"));
    }
    var j := account.value;
    db.users := db.users[j := db.users[j].(role := STUDENT)];
    return Ok(ApproveResponse(VERIFIED, "Student approved"));
  }

  /** `StudentSerializer.create`: fills in the requester, the account email,
      `PENDING` and unverified, then inserts the row. */
  method CreateStudent(db: Database, user: User, input: ProfileInput, id: Uuid, now: Instant) returns (r: Result<Profile>)
    modifies db`students
    ensures (r, db.students) == CreateProfile(StudentKind, old(db.students), user, input, id, now)
  {
    var row := Profile(id, user.id, user.email, input.phoneNo, PENDING, false, input.requestedAt, input.approvedAt);
    row := Saved(StudentKind, row, now);
    if !CanInsert(db.students, row) {
      return Err(IntegrityError("duplicate key value violates unique constraint"));
    }
    db.students := db.students + [row];
    return Ok(row);
  }
}
