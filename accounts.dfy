/**
 * The account routes: registration (its ordered checks and the user data it saves), the
 * login gate, a user's own profile update and an administrator's edit of any user. The
 * directory of user profiles is a sequence in insertion order, so a user's id is its
 * position and "the first match" is the database's natural order.
 */
module Accounts {
  import opened Common
  import Formats
  import Sequences
  import opened Users

  datatype AccountFailure =
    | MissingFields | MissingStudentFields | Duplicate | BadEmail | BadPhone | SaveFailed
    | UserNotFound | EmailTaken | StudentIdTaken

  /** The multipart body of a registration; a field the client did not send is absent. */
  datatype RegisterBody = RegisterBody(
    username: Option<string>, password: Option<string>, className: Option<string>, phone: Option<string>,
    college: Option<string>, email: Option<string>, studentId: Option<string>, role: Option<string>)

  /** Where an uploaded avatar is served from. */
  const AvatarDirectory: string := "/uploads/avatars/"

  function AvatarOf(file: Option<string>): string {
    if file.Some? then AvatarDirectory + file.value else ""
  }

  /** The enum of `role`. */
  function ParseRole(s: string): (r: Option<Role>)
    ensures r.Some? <==> s == "student" || s == "admin"
    ensures r == Some(Student) <==> s == "student"
  {
    if s == "student" then Some(Student) else if s == "admin" then Some(Admin) else None
  }

  /** The duplicate query: a user with the same username or email, or the same student number when one is sent. */
  predicate Taken(profiles: seq<Profile>, username: string, email: string, studentId: Option<string>) {
    exists k :: 0 <= k < |profiles| &&
      (profiles[k].username == username || profiles[k].email == email ||
       (Truthy(studentId) && profiles[k].studentId == studentId))
  }

  /** `new User(userData).save()`: the role enum, the pre-validate hook, then validation. */
  function SaveNew(roleName: string, b: RegisterBody, avatar: Option<string>, attach: bool): (r: Result<Profile, AccountFailure>)
    requires Truthy(b.username) && Truthy(b.phone) && Truthy(b.email)
    ensures r.Ok? ==> Stored(r.value, 0, []) && Some(r.value.role) == ParseRole(roleName)
    ensures r.Ok? ==> r.value.username == b.username.value && r.value.email == b.email.value &&
                      r.value.phone == b.phone.value && r.value.avatar == AvatarOf(avatar) && r.value.active
    ensures ParseRole(roleName).None? ==> r == Err(SaveFailed)
    ensures r.Err? ==> r.error == SaveFailed
  {
    match ParseRole(roleName)
    case None => Err(SaveFailed)
    case Some(role) =>
      var p := Profile(b.username.value, b.email.value, b.phone.value, role,
                       if attach then b.studentId else None,
                       if attach then b.college else None,
                       if attach then b.className else None,
                       AvatarOf(avatar), true);
      var (q, n) := PreValidate(p, 0);
      if Validates(q, n, []) then Ok(q) else Err(SaveFailed)
  }

  /**
   * `POST /register` as written: the student fields are checked and attached only when the
   * body says `role` is "student", although an absent role is saved as a student.
   */
  function RegisterAccountAsWritten(profiles: seq<Profile>, b: RegisterBody, avatar: Option<string>): (r: Result<Profile, AccountFailure>)
    ensures !(Truthy(b.username) && Truthy(b.password) && Truthy(b.phone) && Truthy(b.email)) ==> r == Err(MissingFields)
  {
    if !(Truthy(b.username) && Truthy(b.password) && Truthy(b.phone) && Truthy(b.email)) then Err(MissingFields)
    else if b.role == Some("student") && !(Truthy(b.className) && Truthy(b.college) && Truthy(b.studentId)) then
      Err(MissingStudentFields)
    else if Taken(profiles, b.username.value, b.email.value, b.studentId) then Err(Duplicate)
    else if !Formats.ValidEmail(b.email.value) then Err(BadEmail)
    else if !Formats.ValidPhone(b.phone.value) then Err(BadPhone)
    else SaveNew(if Truthy(b.role) then b.role.value else "student", b, avatar, b.role == Some("student"))
  }

  /** A registration without a role never succeeds as written: the defaulted student lacks the student fields. */
  lemma RegisterWithoutRoleFails(profiles: seq<Profile>, b: RegisterBody, avatar: Option<string>)
    requires !Truthy(b.role)
    ensures RegisterAccountAsWritten(profiles, b, avatar).Err?
  {
  }

  /** The role a registration is saved with: the body's, defaulting to "student". */
  function RoleNameOf(b: RegisterBody): string {
    if Truthy(b.role) then b.role.value else "student"
  }

  /** The four fields every registration must send. */
  predicate RequiredSent(b: RegisterBody) {
    Truthy(b.username) && Truthy(b.password) && Truthy(b.phone) && Truthy(b.email)
  }

  /** The student fields are sent, or the registration is not a student's. */
  predicate StudentFieldsSent(b: RegisterBody) {
    RoleNameOf(b) == "student" ==> Truthy(b.className) && Truthy(b.college) && Truthy(b.studentId)
  }

  /** What the save accepts of a body that passed the route's checks: a known role, and a student's valid number. */
  predicate Saveable(b: RegisterBody)
    requires StudentFieldsSent(b)
  {
    RoleNameOf(b) == "admin" || (RoleNameOf(b) == "student" && Formats.ValidStudentId(b.studentId.value))
  }

  /**
   * `POST /register` with the default role applied before the student checks, so that an
   * absent role registers a student with the student fields. The refusals come in the
   * route's order: missing fields, missing student fields, a duplicate, the e-mail format,
   * the phone format, then the save's own validation.
   */
  function RegisterAccount(profiles: seq<Profile>, b: RegisterBody, avatar: Option<string>): (r: Result<Profile, AccountFailure>)
    ensures r == Err(MissingFields) <==> !RequiredSent(b)
    ensures r == Err(MissingStudentFields) <==> RequiredSent(b) && !StudentFieldsSent(b)
    ensures r == Err(Duplicate) <==>
      RequiredSent(b) && StudentFieldsSent(b) && Taken(profiles, b.username.value, b.email.value, b.studentId)
    ensures r == Err(BadEmail) <==>
      RequiredSent(b) && StudentFieldsSent(b) && !Taken(profiles, b.username.value, b.email.value, b.studentId) &&
      !Formats.ValidEmail(b.email.value)
    ensures r == Err(BadPhone) <==>
      RequiredSent(b) && StudentFieldsSent(b) && !Taken(profiles, b.username.value, b.email.value, b.studentId) &&
      Formats.ValidEmail(b.email.value) && !Formats.ValidPhone(b.phone.value)
    ensures r.Ok? <==>
      RequiredSent(b) && StudentFieldsSent(b) && !Taken(profiles, b.username.value, b.email.value, b.studentId) &&
      Formats.ValidEmail(b.email.value) && Formats.ValidPhone(b.phone.value) && Saveable(b)
    ensures r.Ok? ==>
      Stored(r.value, 0, []) && Some(r.value.role) == ParseRole(RoleNameOf(b)) &&
      r.value.username == b.username.value && r.value.email == b.email.value && r.value.phone == b.phone.value &&
      r.value.avatar == AvatarOf(avatar) && r.value.active
    ensures r.Ok? && r.value.role == Student ==>
      r.value.studentId == b.studentId && r.value.college == b.college && r.value.klass == b.className
    ensures r.Ok? && r.value.role == Admin ==>
      r.value.studentId.None? && r.value.college.None? && r.value.klass.None?
  {
    if !(Truthy(b.username) && Truthy(b.password) && Truthy(b.phone) && Truthy(b.email)) then Err(MissingFields)
    else if RoleNameOf(b) == "student" && !(Truthy(b.className) && Truthy(b.college) && Truthy(b.studentId)) then
      Err(MissingStudentFields)
    else if Taken(profiles, b.username.value, b.email.value, b.studentId) then Err(Duplicate)
    else if !Formats.ValidEmail(b.email.value) then Err(BadEmail)
    else if !Formats.ValidPhone(b.phone.value) then Err(BadPhone)
    else SaveNew(RoleNameOf(b), b, avatar, RoleNameOf(b) == "student")
  }

  /** With the default applied, a complete student body without a role registers a student. */
  lemma RegisterWithoutRoleIsStudent(profiles: seq<Profile>, b: RegisterBody, avatar: Option<string>)
    requires !Truthy(b.role)
    requires Truthy(b.username) && Truthy(b.password) && Truthy(b.phone) && Truthy(b.email)
    requires Truthy(b.className) && Truthy(b.college) && Truthy(b.studentId)
    requires !Taken(profiles, b.username.value, b.email.value, b.studentId)
    requires Formats.ValidEmail(b.email.value) && Formats.ValidPhone(b.phone.value) && Formats.ValidStudentId(b.studentId.value)
    ensures RegisterAccount(profiles, b, avatar).Ok?
    ensures RegisterAccount(profiles, b, avatar).value.role == Student
  {
  }

  /** Both versions agree whenever the body names the role. */
  lemma RegisterAgreesWhenRoleGiven(profiles: seq<Profile>, b: RegisterBody, avatar: Option<string>)
    requires Truthy(b.role)
    ensures RegisterAccount(profiles, b, avatar) == RegisterAccountAsWritten(profiles, b, avatar)
  {
  }

  // ----- login -----

  datatype LoginFailure = MissingCredentials | WrongCredentials | Disabled

  /** A user is found by its username, its email or its student number. */
  predicate IdentifiedBy(p: Profile, identifier: string) {
    p.username == identifier || p.email == identifier || p.studentId == Some(identifier)
  }

  /** The login lookup: the first user the identifier names, or -1. */
  function LoginIndex(profiles: seq<Profile>, identifier: string): (r: int)
    ensures -1 <= r < |profiles|
    ensures r >= 0 ==> IdentifiedBy(profiles[r], identifier)
    ensures r >= 0 ==> forall k :: 0 <= k < r ==> !IdentifiedBy(profiles[k], identifier)
    ensures r == -1 <==> forall k :: 0 <= k < |profiles| ==> !IdentifiedBy(profiles[k], identifier)
  {
    Sequences.FirstIndex(profiles, (p: Profile) => IdentifiedBy(p, identifier))
  }

  /**
   * `POST /login`'s gate. The password comparison is the parameter `passwordMatches`; an
   * account that is not active is refused even when the password matches.
   */
  function Login(profiles: seq<Profile>, identifier: Option<string>, password: Option<string>,
                 passwordMatches: (UserId, string) -> bool): (r: Result<UserId, LoginFailure>)
    ensures !(Truthy(identifier) && Truthy(password)) <==> r == Err(MissingCredentials)
    ensures r == Err(WrongCredentials) <==>
      Truthy(identifier) && Truthy(password) &&
      var k := LoginIndex(profiles, identifier.value);
      k == -1 || !passwordMatches(k, password.value)
    ensures r == Err(Disabled) <==>
      Truthy(identifier) && Truthy(password) &&
      var k := LoginIndex(profiles, identifier.value);
      k >= 0 && passwordMatches(k, password.value) && !profiles[k].active
    ensures r.Ok? <==>
      Truthy(identifier) && Truthy(password) &&
      var k := LoginIndex(profiles, identifier.value);
      k >= 0 && passwordMatches(k, password.value) && profiles[k].active
    ensures r.Ok? ==> r.value == LoginIndex(profiles, identifier.value)
  {
    if !(Truthy(identifier) && Truthy(password)) then Err(MissingCredentials)
    else
      var k := LoginIndex(profiles, identifier.value);
      if k == -1 || !passwordMatches(k, password.value) then Err(WrongCredentials)
      else if !profiles[k].active then Err(Disabled)
      else Ok(k)
  }

  /** A disabled account is never let in, whatever password is presented. */
  lemma DisabledNeverLogsIn(profiles: seq<Profile>, identifier: string, password: Option<string>,
                            passwordMatches: (UserId, string) -> bool)
    requires Truthy(Some(identifier))
    requires forall k :: 0 <= k < |profiles| && IdentifiedBy(profiles[k], identifier) ==> !profiles[k].active
    ensures !Login(profiles, Some(identifier), password, passwordMatches).Ok?
  {
  }

  // ----- profile patches -----

  /** The paths a patch may set, as request-body names map to document paths. */
  const PatchPaths: set<string> := {"username", "email", "phone", "studentId", "college", "class", "avatar"}

  /** A patch entry for `key` when `v` is truthy. */
  function SetIfTruthy(m: map<string, string>, key: string, v: Option<string>): (r: map<string, string>)
    ensures Truthy(v) ==> r == m[key := v.value]
    ensures !Truthy(v) ==> r == m
  {
    if Truthy(v) then m[key := v.value] else m
  }

  /**
   * `PUT /update-profile`'s update object: email and phone when sent, class and college
   * when sent by a student, the new avatar when a file came; never the username or the
   * student number.
   */
  function ProfilePatch(role: Role, email: Option<string>, phone: Option<string>, className: Option<string>,
                        college: Option<string>, avatar: Option<string>): (patch: map<string, string>)
    ensures patch.Keys <= {"email", "phone", "class", "college", "avatar"}
    ensures "username" !in patch && "studentId" !in patch
    ensures "email" in patch <==> Truthy(email)
    ensures "phone" in patch <==> Truthy(phone)
    ensures "class" in patch <==> role == Student && Truthy(className)
    ensures "college" in patch <==> role == Student && Truthy(college)
    ensures "avatar" in patch <==> avatar.Some?
    ensures "email" in patch ==> patch["email"] == email.value
    ensures "phone" in patch ==> patch["phone"] == phone.value
    ensures "class" in patch ==> patch["class"] == className.value
    ensures "college" in patch ==> patch["college"] == college.value
    ensures "avatar" in patch ==> patch["avatar"] == AvatarOf(avatar)
  {
    var m := SetIfTruthy(SetIfTruthy(map[], "email", email), "phone", phone);
    var m := if role == Student then SetIfTruthy(SetIfTruthy(m, "class", className), "college", college) else m;
    if avatar.Some? then m["avatar" := AvatarOf(avatar)] else m
  }

  /** The admin edit's update object: every truthy field of the six, and nothing else. */
  function AdminPatch(username: Option<string>, email: Option<string>, phone: Option<string>, studentId: Option<string>,
                      college: Option<string>, className: Option<string>): (patch: map<string, string>)
    ensures patch.Keys <= PatchPaths - {"avatar"}
    ensures "username" in patch <==> Truthy(username)
    ensures "email" in patch <==> Truthy(email)
    ensures "phone" in patch <==> Truthy(phone)
    ensures "studentId" in patch <==> Truthy(studentId)
    ensures "college" in patch <==> Truthy(college)
    ensures "class" in patch <==> Truthy(className)
    ensures "username" in patch ==> patch["username"] == username.value
    ensures "email" in patch ==> patch["email"] == email.value
    ensures "phone" in patch ==> patch["phone"] == phone.value
    ensures "studentId" in patch ==> patch["studentId"] == studentId.value
    ensures "college" in patch ==> patch["college"] == college.value
    ensures "class" in patch ==> patch["class"] == className.value
  {
    var m := SetIfTruthy(SetIfTruthy(SetIfTruthy(map[], "username", username), "email", email), "phone", phone);
    SetIfTruthy(SetIfTruthy(SetIfTruthy(m, "studentId", studentId), "college", college), "class", className)
  }

  /** The profile after `findByIdAndUpdate` sets the patched paths. */
  function ApplyPatch(p: Profile, patch: map<string, string>): (q: Profile)
    ensures q.role == p.role && q.active == p.active
    ensures q.username == (if "username" in patch then patch["username"] else p.username)
    ensures q.email == (if "email" in patch then patch["email"] else p.email)
    ensures q.phone == (if "phone" in patch then patch["phone"] else p.phone)
    ensures q.studentId == (if "studentId" in patch then Some(patch["studentId"]) else p.studentId)
    ensures q.college == (if "college" in patch then Some(patch["college"]) else p.college)
    ensures q.klass == (if "class" in patch then Some(patch["class"]) else p.klass)
    ensures q.avatar == (if "avatar" in patch then patch["avatar"] else p.avatar)
  {
    p.(username := if "username" in patch then patch["username"] else p.username,
       email := if "email" in patch then patch["email"] else p.email,
       phone := if "phone" in patch then patch["phone"] else p.phone,
       studentId := if "studentId" in patch then Some(patch["studentId"]) else p.studentId,
       college := if "college" in patch then Some(patch["college"]) else p.college,
       klass := if "class" in patch then Some(patch["class"]) else p.klass,
       avatar := if "avatar" in patch then patch["avatar"] else p.avatar)
  }

  /** Whether another user than `self` already uses `email`. */
  predicate EmailUsedByOther(profiles: seq<Profile>, self: UserId, email: string) {
    exists k :: 0 <= k < |profiles| && k != self && profiles[k].email == email
  }

  predicate StudentIdUsedByOther(profiles: seq<Profile>, self: UserId, studentId: string) {
    exists k :: 0 <= k < |profiles| && k != self && profiles[k].studentId == Some(studentId)
  }

  predicate UsernameUsedByOther(profiles: seq<Profile>, self: UserId, username: string) {
    exists k :: 0 <= k < |profiles| && k != self && profiles[k].username == username
  }

  /** An e-mail passes the format check when it is not sent or is well formed. */
  predicate EmailAcceptable(email: Option<string>) {
    Truthy(email) ==> Formats.ValidEmail(email.value)
  }

  predicate PhoneAcceptable(phone: Option<string>) {
    Truthy(phone) ==> Formats.ValidPhone(phone.value)
  }

  /** The e-mail uniqueness check passes: not sent, unchanged, or nobody else's. */
  predicate EmailFree(profiles: seq<Profile>, self: UserId, email: Option<string>)
    requires self < |profiles|
  {
    !(Truthy(email) && email.value != profiles[self].email && EmailUsedByOther(profiles, self, email.value))
  }

  /** The student-number uniqueness check passes: not sent, unchanged, or nobody else's. */
  predicate StudentIdFree(profiles: seq<Profile>, self: UserId, studentId: Option<string>)
    requires self < |profiles|
  {
    !(Truthy(studentId) && Some(studentId.value) != profiles[self].studentId &&
      StudentIdUsedByOther(profiles, self, studentId.value))
  }

  /** The update's validators and unique index accept the admin patch's number and username. */
  predicate AdminPatchAccepted(profiles: seq<Profile>, self: UserId, username: Option<string>, studentId: Option<string>) {
    !((Truthy(studentId) && !Formats.ValidStudentId(studentId.value)) ||
      (Truthy(username) && UsernameUsedByOther(profiles, self, username.value)))
  }

  /** The user directory. */
  class Accounts {
    var profiles: seq<Profile>

    constructor()
      ensures profiles == []
    {
      profiles := [];
    }

    /** `POST /register`, with the default role applied: the new user is appended. */
    method RegisterUser(b: RegisterBody, avatar: Option<string>) returns (r: Result<UserId, AccountFailure>)
      modifies this
      ensures var reg := RegisterAccount(old(profiles), b, avatar);
        (reg.Err? ==> r == Err(reg.error) && profiles == old(profiles)) &&
        (reg.Ok? ==> r == Ok(|old(profiles)|) && profiles == old(profiles) + [reg.value])
    {
      match RegisterAccount(profiles, b, avatar)
      case Err(e) =>
        r := Err(e);
      case Ok(p) =>
        r := Ok(|profiles|);
        profiles := profiles + [p];
    }

    /**
     * `PUT /update-profile`: format checks, the lookup, the email uniqueness check, then the
     * patch. Nothing changes on a refusal.
     */
    method UpdateProfile(self: UserId, email: Option<string>, phone: Option<string>, className: Option<string>,
                         college: Option<string>, avatar: Option<string>)
      returns (r: Result<Profile, AccountFailure>)
      modifies this
      ensures r == Err(BadEmail) <==> !EmailAcceptable(email)
      ensures r == Err(BadPhone) <==> EmailAcceptable(email) && !PhoneAcceptable(phone)
      ensures r == Err(UserNotFound) <==> EmailAcceptable(email) && PhoneAcceptable(phone) && self >= |old(profiles)|
      ensures r == Err(EmailTaken) <==>
        EmailAcceptable(email) && PhoneAcceptable(phone) && self < |old(profiles)| && !EmailFree(old(profiles), self, email)
      ensures r.Ok? <==>
        EmailAcceptable(email) && PhoneAcceptable(phone) && self < |old(profiles)| && EmailFree(old(profiles), self, email)
      ensures r.Err? ==> profiles == old(profiles)
      ensures r.Ok? ==>
        r.value == ApplyPatch(old(profiles)[self], ProfilePatch(old(profiles)[self].role, email, phone, className, college, avatar)) &&
        profiles == old(profiles)[self := r.value]
      ensures r.Ok? ==> r.value.username == old(profiles)[self].username && r.value.studentId == old(profiles)[self].studentId
    {
      if Truthy(email) && !Formats.ValidEmail(email.value) {
        return Err(BadEmail);
      }
      if Truthy(phone) && !Formats.ValidPhone(phone.value) {
        return Err(BadPhone);
      }
      if self >= |profiles| {
        return Err(UserNotFound);
      }
      var current := profiles[self];
      if Truthy(email) && email.value != current.email && EmailUsedByOther(profiles, self, email.value) {
        return Err(EmailTaken);
      }
      var updated := ApplyPatch(current, ProfilePatch(current.role, email, phone, className, college, avatar));
      profiles := profiles[self := updated];
      r := Ok(updated);
    }

    /**
     * `PUT /users/:id`: the lookup first, then the formats, the email and student-number
     * uniqueness checks, then the truthy-field patch. The update's validators check the
     * student-number format of a patched number, and the unique username index refuses a
     * username another user has.
     */
    method AdminEdit(target: UserId, username: Option<string>, email: Option<string>, phone: Option<string>,
                     studentId: Option<string>, college: Option<string>, className: Option<string>)
      returns (r: Result<Profile, AccountFailure>)
      modifies this
      ensures r == Err(UserNotFound) <==> target >= |old(profiles)|
      ensures r == Err(BadEmail) <==> target < |old(profiles)| && !EmailAcceptable(email)
      ensures r == Err(BadPhone) <==> target < |old(profiles)| && EmailAcceptable(email) && !PhoneAcceptable(phone)
      ensures r == Err(EmailTaken) <==>
        target < |old(profiles)| && EmailAcceptable(email) && PhoneAcceptable(phone) && !EmailFree(old(profiles), target, email)
      ensures r == Err(StudentIdTaken) <==>
        target < |old(profiles)| && EmailAcceptable(email) && PhoneAcceptable(phone) && EmailFree(old(profiles), target, email) &&
        !StudentIdFree(old(profiles), target, studentId)
      ensures r == Err(SaveFailed) <==>
        target < |old(profiles)| && EmailAcceptable(email) && PhoneAcceptable(phone) && EmailFree(old(profiles), target, email) &&
        StudentIdFree(old(profiles), target, studentId) && !AdminPatchAccepted(old(profiles), target, username, studentId)
      ensures r.Ok? <==>
        target < |old(profiles)| && EmailAcceptable(email) && PhoneAcceptable(phone) && EmailFree(old(profiles), target, email) &&
        StudentIdFree(old(profiles), target, studentId) && AdminPatchAccepted(old(profiles), target, username, studentId)
      ensures r.Err? ==> profiles == old(profiles)
      ensures r.Ok? ==>
        r.value == ApplyPatch(old(profiles)[target], AdminPatch(username, email, phone, studentId, college, className)) &&
        profiles == old(profiles)[target := r.value]
    {
      if target >= |profiles| {
        return Err(UserNotFound);
      }
      var user := profiles[target];
      if Truthy(email) && !Formats.ValidEmail(email.value) {
        return Err(BadEmail);
      }
      if Truthy(phone) && !Formats.ValidPhone(phone.value) {
        return Err(BadPhone);
      }
      if Truthy(email) && email.value != user.email && EmailUsedByOther(profiles, target, email.value) {
        return Err(EmailTaken);
      }
      if Truthy(studentId) && Some(studentId.value) != user.studentId && StudentIdUsedByOther(profiles, target, studentId.value) {
        return Err(StudentIdTaken);
      }
      if (Truthy(studentId) && !Formats.ValidStudentId(studentId.value)) ||
         (Truthy(username) && UsernameUsedByOther(profiles, target, username.value)) {
        return Err(SaveFailed);
      }
      var updated := ApplyPatch(user, AdminPatch(username, email, phone, studentId, college, className));
      profiles := profiles[target := updated];
      r := Ok(updated);
    }
  }

  /**
   * The update bypasses the pre-validate hook, so an administrator's account can be given a
   * student number, which a save of the same account would strip.
   */
  lemma AdminEditCanGiveAdminStudentNumber(p: Profile, sid: string)
    requires p.role == Admin && sid != ""
    ensures var q := ApplyPatch(p, AdminPatch(None, None, None, Some(sid), None, None));
      q.role == Admin && q.studentId == Some(sid) && PreValidate(q, 0).0.studentId.None?
  {
  }
}
