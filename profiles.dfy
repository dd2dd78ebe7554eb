/** Student and teacher verification profiles. The two apps declare the same
    record and the same workflow; `ProfileKind` says which app a row belongs to. */
module Profiles {
  import opened Base
  import opened UserModels

  datatype ProfileKind = StudentKind | TeacherKind

  const VERIFIED := "VERIFIED"
  const PENDING := "PENDING"

  /** The declared status choices of each app. */
  function StatusChoices(kind: ProfileKind): set<string> {
    match kind
    case StudentKind => {"VERIFIED", "BLOCK", "PENDING", "REJECTED", "RE_APPLY"}
    case TeacherKind => {"VERIFIED", "BLOCK", "PENDING"}
  }

  /** A `Student` or `Teacher` row; the personal details that no modelled
      code reads are left out. */
  datatype Profile = Profile(
    id: Uuid,
    user: Uuid,
    email: string,
    phoneNo: string,
    status: string,
    verified: bool,
    requestedAt: Option<Instant>,
    approvedAt: Option<Instant>)

  /** The writable fields a verification request may carry. `user`, `status`,
      `verified` and `id` are read-only, so they have no place here. */
  datatype ProfileInput = ProfileInput(
    email: string,
    phoneNo: string,
    requestedAt: Option<Instant>,
    approvedAt: Option<Instant>)

  /** `Student.requested_at` is declared with `auto_now=True`: every save
      stamps it with the current time. The teacher field is a plain field. */
  function Saved(kind: ProfileKind, p: Profile, now: Instant): (r: Profile)
    ensures r.(requestedAt := p.requestedAt) == p
    ensures kind == StudentKind ==> r.requestedAt == Some(now)
    ensures kind == TeacherKind ==> r == p
  {
    match kind
    case StudentKind => p.(requestedAt := Some(now))
    case TeacherKind => p
  }

  /** Index of the profile with the given email, if any. */
  function FindByEmail(rows: seq<Profile>, email: string): (r: Option<nat>)
    ensures r.Some? ==> r.value < |rows| && rows[r.value].email == email
    ensures r.None? ==> forall i :: 0 <= i < |rows| ==> rows[i].email != email
  {
    if rows == [] then None
    else if rows[0].email == email then Some(0)
    else match FindByEmail(rows[1..], email)
      case None => None
      case Some(i) => Some(i + 1)
  }

  /** `email = models.EmailField(unique=True)` and the one-to-one link to users. */
  ghost predicate UniqueProfiles(rows: seq<Profile>) {
    forall i, j :: 0 <= i < j < |rows| ==>
      rows[i].email != rows[j].email && rows[i].phoneNo != rows[j].phoneNo
      && rows[i].user != rows[j].user && rows[i].id != rows[j].id
  }

  /** Whether the user has a profile of this kind (`hasattr(user, 'student_profile')`). */
  predicate HasProfile(rows: seq<Profile>, user: Uuid) {
    exists i :: 0 <= i < |rows| && rows[i].user == user
  }

  /** `user.student_profile` / `user.teacher_profile` through the one-to-one
      link, or None when the requester has none (or is anonymous), as
      `getattr(request.user, ..., None)` gives. */
  function ProfileOf(rows: seq<Profile>, req: Requester): (r: Option<Profile>)
    ensures r.Some? ==> req.Some? && r.value in rows && r.value.user == req.value.id
    ensures r.None? <==> req.None? || !HasProfile(rows, req.value.id)
  {
    if req.None? then None
    else match FindByUser(rows, req.value.id)
      case Some(i) => Some(rows[i])
      case None => None
  }

  function FindByUser(rows: seq<Profile>, user: Uuid): (r: Option<nat>)
    ensures r.Some? ==> r.value < |rows| && rows[r.value].user == user
    ensures r.None? ==> forall i :: 0 <= i < |rows| ==> rows[i].user != user
  {
    if rows == [] then None
    else if rows[0].user == user then Some(0)
    else match FindByUser(rows[1..], user)
      case None => None
      case Some(i) => Some(i + 1)
  }

  // ----- the verification check view -----

  /** `{"status": ..., "found": ...}` of the verification check. */
  datatype CheckResponse = CheckResponse(status: string, found: bool)

  /** The verification check: the status of the profile carrying the
      requester's email, or `NOT_FOUND`. */
  function VerificationCheck(rows: seq<Profile>, email: string): (r: CheckResponse)
    ensures r.found <==> exists i :: 0 <= i < |rows| && rows[i].email == email
    ensures !r.found ==> r.status == "NOT_FOUND"
    ensures UniqueProfiles(rows) ==>
      forall i :: 0 <= i < |rows| && rows[i].email == email ==> r.status == rows[i].status
  {
    match FindByEmail(rows, email)
    case Some(i) => CheckResponse(rows[i].status, true)
    case None => CheckResponse("NOT_FOUND", false)
  }

  // ----- the pending and verified lists -----

  /** The sort key of `order_by('-requested_at')`. A null time sorts below every time, as
      SQLite and MySQL order a descending column. */
  predicate AtLeastAsRecent(a: Profile, b: Profile) {
    match (a.requestedAt, b.requestedAt)
    case (None, None) => true
    case (None, Some(_)) => false
    case (Some(_), None) => true
    case (Some(x), Some(y)) => x >= y
  }

  ghost predicate NewestFirst(s: seq<Profile>) {
    forall i, j :: 0 <= i < j < |s| ==> AtLeastAsRecent(s[i], s[j])
  }

  function WithStatus(rows: seq<Profile>, status: string): (r: seq<Profile>)
    ensures forall p :: p in r ==> p in rows && p.status == status
    ensures |r| <= |rows|
  {
    if rows == [] then []
    else if rows[0].status == status then [rows[0]] + WithStatus(rows[1..], status)
    else WithStatus(rows[1..], status)
  }

  lemma {:induction false} WithStatusComplete(rows: seq<Profile>, status: string)
    ensures forall p :: p in rows && p.status == status ==> p in WithStatus(rows, status)
    ensures multiset(WithStatus(rows, status)) <= multiset(rows)
  {
    if rows != [] {
      WithStatusComplete(rows[1..], status);
      assert rows == [rows[0]] + rows[1..];
    }
  }

  lemma RecencyTotal(a: Profile, b: Profile)
    ensures AtLeastAsRecent(a, b) || AtLeastAsRecent(b, a)
  {
  }

  lemma RecencyTransitive(a: Profile, b: Profile, c: Profile)
    requires AtLeastAsRecent(a, b) && AtLeastAsRecent(b, c)
    ensures AtLeastAsRecent(a, c)
  {
  }

  function Insert(p: Profile, s: seq<Profile>): (r: seq<Profile>)
    requires NewestFirst(s)
    ensures NewestFirst(r) && multiset(r) == multiset(s) + multiset{p}
    ensures forall q :: q in r ==> q == p || q in s
  {
    if s == [] then [p]
    else if AtLeastAsRecent(p, s[0]) then
      InsertAtFront(p, s);
      [p] + s
    else
      var rest := Insert(p, s[1..]);
      RecencyTotal(p, s[0]);
      InsertBehind(p, s, rest);
      assert s == [s[0]] + s[1..];
      assert multiset([s[0]] + rest) == multiset{s[0]} + multiset(rest);
      [s[0]] + rest
  }

  lemma InsertAtFront(p: Profile, s: seq<Profile>)
    requires NewestFirst(s) && s != [] && AtLeastAsRecent(p, s[0])
    ensures NewestFirst([p] + s)
  {
    forall j | 0 <= j < |s| ensures AtLeastAsRecent(p, s[j]) {
      if j > 0 { RecencyTransitive(p, s[0], s[j]); }
    }
  }

  lemma InsertBehind(p: Profile, s: seq<Profile>, rest: seq<Profile>)
    requires NewestFirst(s) && s != [] && AtLeastAsRecent(s[0], p)
    requires NewestFirst(rest) && forall q :: q in rest ==> q == p || q in s[1..]
    ensures NewestFirst([s[0]] + rest)
  {
    forall j | 0 <= j < |rest| ensures AtLeastAsRecent(s[0], rest[j]) {
      assert rest[j] in rest;
      if rest[j] != p {
        var k :| 0 <= k < |s[1..]| && s[1..][k] == rest[j];
        assert s[k + 1] == rest[j];
      }
    }
    var r := [s[0]] + rest;
    forall i, j | 0 <= i < j < |r| ensures AtLeastAsRecent(r[i], r[j]) {
      if i > 0 { assert r[i] == rest[i - 1] && r[j] == rest[j - 1]; }
    }
  }

  function SortNewestFirst(s: seq<Profile>): (r: seq<Profile>)
    ensures NewestFirst(r) && multiset(r) == multiset(s)
  {
    if s == [] then []
    else
      assert s == [s[0]] + s[1..];
      Insert(s[0], SortNewestFirst(s[1..]))
  }

  /** `filter(status=...).order_by('-requested_at')`: exactly the rows with
      that status, newest request first. */
  function ListByStatus(rows: seq<Profile>, status: string): (r: seq<Profile>)
    ensures NewestFirst(r)
    ensures forall p :: p in r <==> p in rows && p.status == status
    ensures multiset(r) <= multiset(rows)
  {
    WithStatusComplete(rows, status);
    var f := WithStatus(rows, status);
    var r := SortNewestFirst(f);
    assert forall p :: p in r <==> p in multiset(r);
    assert forall p :: p in f <==> p in multiset(f);
    r
  }

  // ----- the verification request serializer -----

  /** `validate_email`: with a request, the email must be the account's.
      `None` stands for a serializer without a request, which passes. An
      anonymous requester would raise `AttributeError` on `user.email`; the
      `IsAuthenticated` permission in front of the view keeps it from here. */
  function ValidateEmail(req: Requester, value: string): (r: Result<string>)
    ensures r.Ok? <==> req.None? || req.value.email == value
    ensures r.Ok? ==> r.value == value
  {
    if req.Some? && req.value.email != value then
      Err(ValidationError("email", "Email must match your account email."))
    else Ok(value)
  }

  /** `validate`: a requester who already has a profile of this kind is refused. */
  function Validate(kind: ProfileKind, req: Requester, rows: seq<Profile>): (r: Result<()>)
    ensures r.Err? <==> req.Some? && HasProfile(rows, req.value.id)
  {
    if req.Some? && HasProfile(rows, req.value.id) then
      Err(ValidationError("non_field_errors",
        match kind
        case StudentKind => "You already have a student verification request."
        case TeacherKind => "You already have a teacher verification request."))
    else Ok(())
  }

  /** The row `create` inserts: the requester as user, the account email,
      `PENDING` and unverified, whatever the input said. */
  function NewProfile(kind: ProfileKind, id: Uuid, user: User, input: ProfileInput, now: Instant): Profile
  {
    Saved(kind, Profile(id, user.id, user.email, input.phoneNo, PENDING, false,
                        input.requestedAt, input.approvedAt), now)
  }

  /** A freshly created profile is pending and unverified, belongs to the
      requester and carries the account email; its status is a declared choice. */
  lemma NewProfileFields(kind: ProfileKind, id: Uuid, user: User, input: ProfileInput, now: Instant)
    ensures var p := NewProfile(kind, id, user, input, now);
      p.user == user.id && p.email == user.email && p.status == PENDING && !p.verified
      && p.status in StatusChoices(kind) && p.id == id
  {
  }

  /** The insertion violates none of the unique columns. */
  predicate CanInsert(rows: seq<Profile>, p: Profile) {
    forall i :: 0 <= i < |rows| ==>
      rows[i].email != p.email && rows[i].phoneNo != p.phoneNo
      && rows[i].user != p.user && rows[i].id != p.id
  }

  lemma InsertKeepsUnique(rows: seq<Profile>, p: Profile)
    requires UniqueProfiles(rows) && CanInsert(rows, p)
    ensures UniqueProfiles(rows + [p])
  {
  }

  /** The `ALREADY VERIFIED` / `VERIFIED` responses of the approve views. */
  datatype ApproveResponse = ApproveResponse(status: string, msg: string)

  function AlreadyVerified(kind: ProfileKind): ApproveResponse {
    match kind
    case StudentKind => ApproveResponse("ALREADY VERIFIED", "Student already approved.")
    case TeacherKind => ApproveResponse("ALREADY VERIFIED", "Teacher already approved.")
  }

  function Approved(kind: ProfileKind): ApproveResponse {
    match kind
    case StudentKind => ApproveResponse(VERIFIED, "Student approved")
    case TeacherKind => ApproveResponse(VERIFIED, "Teacher approved")
  }

  /** The user role each approval grants. */
  function ApprovedRole(kind: ProfileKind): string {
    match kind
    case StudentKind => STUDENT
    case TeacherKind => TEACHER
  }

  /** The approved version of a row. */
  function ApprovedProfile(kind: ProfileKind, p: Profile, now: Instant): (r: Profile)
    ensures r.verified && r.status == VERIFIED && r.approvedAt == Some(now)
    ensures r.id == p.id && r.user == p.user && r.email == p.email && r.phoneNo == p.phoneNo
  {
    Saved(kind, p.(verified := true, status := VERIFIED, approvedAt := Some(now)), now)
  }

  // ----- the approve view -----

  /** The model whose `DoesNotExist` a failed profile lookup raises. */
  function ModelName(kind: ProfileKind): string {
    match kind
    case StudentKind => "Student"
    case TeacherKind => "Teacher"
  }

  /** The approve view over the profile and user tables: the answer and both
      tables afterwards. The profile is saved before the user is looked up,
      so a missing user leaves the profile approved and the role unchanged. */
  function Approve(kind: ProfileKind, rows: seq<Profile>, users: seq<User>, email: Option<string>, now: Instant)
    : (r: (Result<ApproveResponse>, seq<Profile>, seq<User>))
    ensures |r.1| == |rows| && |r.2| == |users|
    ensures r.0.Ok? ==> r.0.value == AlreadyVerified(kind) || r.0.value == Approved(kind)
    ensures r.0.Err? ==> r.2 == users && (r.0.error == DoesNotExist(ModelName(kind)) || r.0.error == DoesNotExist("User"))
  {
    if email.None? then (Err(DoesNotExist(ModelName(kind))), rows, users)
    else match FindByEmail(rows, email.value)
      case None => (Err(DoesNotExist(ModelName(kind))), rows, users)
      case Some(i) =>
        if rows[i].verified then (Ok(AlreadyVerified(kind)), rows, users)
        else
          var approved := rows[i := ApprovedProfile(kind, rows[i], now)];
          match FindUserByEmail(users, email.value)
          case None => (Err(DoesNotExist("User")), approved, users)
          case Some(j) => (Ok(Approved(kind)), approved, users[j := users[j].(role := ApprovedRole(kind))])
  }

  /** No email, or no profile with it: `DoesNotExist` and nothing changes. */
  lemma ApproveUnknown(kind: ProfileKind, rows: seq<Profile>, users: seq<User>, email: Option<string>, now: Instant)
    requires email.None? || FindByEmail(rows, email.value).None?
    ensures Approve(kind, rows, users, email, now) == (Err(DoesNotExist(ModelName(kind))), rows, users)
  {
  }

  /** A verified profile is answered `ALREADY VERIFIED` and nothing changes. */
  lemma ApproveVerifiedNoChange(kind: ProfileKind, rows: seq<Profile>, users: seq<User>, e: string, now: Instant)
    requires FindByEmail(rows, e).Some? && rows[FindByEmail(rows, e).value].verified
    ensures Approve(kind, rows, users, Some(e), now) == (Ok(AlreadyVerified(kind)), rows, users)
  {
  }

  /** Approving an unverified profile rewrites that row alone. */
  lemma ApproveUnverifiedProfile(kind: ProfileKind, rows: seq<Profile>, users: seq<User>, e: string, now: Instant)
    requires FindByEmail(rows, e).Some? && !rows[FindByEmail(rows, e).value].verified
    ensures var i := FindByEmail(rows, e).value;
      var r := Approve(kind, rows, users, Some(e), now);
      r.1 == rows[i := ApprovedProfile(kind, rows[i], now)]
      && r.1[i].verified && r.1[i].status == VERIFIED && r.1[i].approvedAt == Some(now) && r.1[i].email == e
      && (forall k :: 0 <= k < |rows| && k != i ==> r.1[k] == rows[k])
  {
  }

  /** The user with the email, when there is one, then gets the kind's role
      and no other user changes; without one the call fails after the
      profile was saved. */
  lemma ApproveUnverifiedUser(kind: ProfileKind, rows: seq<Profile>, users: seq<User>, e: string, now: Instant)
    requires FindByEmail(rows, e).Some? && !rows[FindByEmail(rows, e).value].verified
    ensures var r := Approve(kind, rows, users, Some(e), now);
      (FindUserByEmail(users, e).None? ==> r.0 == Err(DoesNotExist("User")) && r.2 == users)
      && (FindUserByEmail(users, e).Some? ==>
            var j := FindUserByEmail(users, e).value;
            r.0 == Ok(Approved(kind)) && r.2 == users[j := users[j].(role := ApprovedRole(kind))]
            && r.2[j].role == ApprovedRole(kind) && r.2[j].email == e
            && forall k :: 0 <= k < |users| && k != j ==> r.2[k] == users[k])
  {
  }

  /** Rewriting the row an email finds, keeping its email, leaves the lookup
      where it was. */
  lemma {:induction false} FindByEmailUpdate(rows: seq<Profile>, e: string, p: Profile)
    requires FindByEmail(rows, e).Some? && p.email == e
    ensures FindByEmail(rows[FindByEmail(rows, e).value := p], e) == FindByEmail(rows, e)
  {
    var i := FindByEmail(rows, e).value;
    if i > 0 {
      assert rows[0].email != e;
      FindByEmailUpdate(rows[1..], e, p);
      assert rows[i := p][1..] == rows[1..][i - 1 := p];
    }
  }

  /** Approve is idempotent: once a call has found the profile, a later call
      with the same email answers `ALREADY VERIFIED` and changes nothing, even
      when the first call failed on a missing user. */
  lemma ApproveIdempotent(kind: ProfileKind, rows: seq<Profile>, users: seq<User>, e: string, now: Instant, later: Instant)
    requires FindByEmail(rows, e).Some?
    ensures var (_, rows1, users1) := Approve(kind, rows, users, Some(e), now);
      Approve(kind, rows1, users1, Some(e), later) == (Ok(AlreadyVerified(kind)), rows1, users1)
  {
    var i := FindByEmail(rows, e).value;
    if !rows[i].verified {
      FindByEmailUpdate(rows, e, ApprovedProfile(kind, rows[i], now));
    }
  }

  /** Approval keeps the unique columns unique, and after approving an
      unverified profile the verification check reports it as verified. A
      row that is already verified keeps whatever status it has. */
  lemma ApproveKeepsUnique(kind: ProfileKind, rows: seq<Profile>, users: seq<User>, e: string, now: Instant)
    requires UniqueProfiles(rows) && FindByEmail(rows, e).Some?
    ensures var r := Approve(kind, rows, users, Some(e), now);
      UniqueProfiles(r.1)
      && (!rows[FindByEmail(rows, e).value].verified ==> VerificationCheck(r.1, e) == CheckResponse(VERIFIED, true))
      && (rows[FindByEmail(rows, e).value].verified ==> VerificationCheck(r.1, e) == VerificationCheck(rows, e))
  {
    var i := FindByEmail(rows, e).value;
    if !rows[i].verified {
      var p := ApprovedProfile(kind, rows[i], now);
      ApproveUnverifiedProfile(kind, rows, users, e, now);
      FindByEmailUpdate(rows, e, p);
      SameKeysKeepUnique(rows, i, p);
    }
  }

  /** Rewriting a row without touching its unique columns keeps them unique. */
  lemma SameKeysKeepUnique(rows: seq<Profile>, i: nat, p: Profile)
    requires UniqueProfiles(rows) && i < |rows|
    requires p.email == rows[i].email && p.phoneNo == rows[i].phoneNo && p.user == rows[i].user && p.id == rows[i].id
    ensures UniqueProfiles(rows[i := p])
  {
  }

  // ----- the verification request serializer's `create` -----

  /** `create`: the new row, or `IntegrityError` when a unique column clashes. */
  function CreateProfile(kind: ProfileKind, rows: seq<Profile>, user: User, input: ProfileInput, id: Uuid, now: Instant)
    : (r: (Result<Profile>, seq<Profile>))
    ensures r.0.Ok? ==> r.1 == rows + [r.0.value] && r.0.value == NewProfile(kind, id, user, input, now)
    ensures r.0.Err? ==> r.1 == rows && r.0.error.IntegrityError?
  {
    var p := NewProfile(kind, id, user, input, now);
    if CanInsert(rows, p) then (Ok(p), rows + [p])
    else (Err(IntegrityError("duplicate key value violates unique constraint")), rows)
  }

  /** A created profile keeps the table's unique columns unique, and the
      requester's verification check then reports it as pending; a
      requester the validator let through fails only on another unique
      column. */
  lemma CreateProfileVisible(kind: ProfileKind, rows: seq<Profile>, user: User, input: ProfileInput, id: Uuid, now: Instant)
    requires UniqueProfiles(rows)
    ensures var r := CreateProfile(kind, rows, user, input, id, now);
      r.0.Ok? ==> UniqueProfiles(r.1) && VerificationCheck(r.1, user.email) == CheckResponse(PENDING, true)
    ensures Validate(kind, Some(user), rows).Ok? ==> forall i :: 0 <= i < |rows| ==> rows[i].user != user.id
  {
    var r := CreateProfile(kind, rows, user, input, id, now);
    if r.0.Ok? {
      InsertKeepsUnique(rows, r.0.value);
      FindByEmailAppend(rows, r.0.value);
    }
  }

  lemma {:induction false} FindByEmailAppend(rows: seq<Profile>, p: Profile)
    requires forall i :: 0 <= i < |rows| ==> rows[i].email != p.email
    ensures FindByEmail(rows + [p], p.email) == Some(|rows|)
  {
    if rows != [] {
      assert (rows + [p])[1..] == rows[1..] + [p];
      FindByEmailAppend(rows[1..], p);
    }
  }
}
