/**
 * The registration page: its form state, the role switch that resets the student fields,
 * the field and avatar handlers with their inline warnings, and the submit handler that
 * checks the form in order and builds the multipart body it posts.
 */
module RegisterPage {
  import opened Common
  import Formats
  import Sequences

  /** A form value as JavaScript sees it. */
  datatype Value = Undefined | Null | Text(s: string) | FileValue(name: string, size: nat)

  /** The form's properties, named after the inputs that set them; `RoleField` is added on submission. */
  datatype Field =
    | Username | Password | ConfirmPassword | StudentNumber | ClassName | Phone | College | Email | Avatar | RoleField

  /** A property of the form object, in key order. */
  datatype Entry = Entry(key: Field, value: Value)

  /** The messages the page shows. */
  datatype Message =
    | PasswordRule | StudentIdRule | EmailRule | PhoneRule | AvatarTooLarge
    | PasswordMismatch | PasswordInvalid | EmailInvalid | PhoneInvalid | StudentIdInvalid | MissingFields

  /** The largest accepted avatar, in bytes. */
  const MaxAvatarSize: nat := 2 * 1024 * 1024

  predicate TruthyValue(v: Value) {
    (v.Text? && v.s != "") || v.FileValue?
  }

  predicate TruthyEntry(e: Entry) {
    TruthyValue(e.value)
  }

  /** What a regular expression's `test` sees: its argument converted to a string. */
  function AsText(v: Value): string {
    match v
    case Undefined => "undefined"
    case Null => "null"
    case Text(s) => s
    case FileValue(_, _) => "[object File]"
  }

  /** The value under `key`, if the form has that key. */
  function Find(form: seq<Entry>, key: Field): Option<Value> {
    if form == [] then None
    else if form[0].key == key then Some(form[0].value)
    else Find(form[1..], key)
  }

  /** `formData[key]`. */
  function Lookup(form: seq<Entry>, key: Field): Value {
    var v := Find(form, key);
    if v.Some? then v.value else Undefined
  }

  /** `{...form, [key]: v}`: an existing key keeps its place, a new one goes last. */
  function Set(form: seq<Entry>, key: Field, v: Value): (r: seq<Entry>)
    ensures Lookup(r, key) == v
    ensures forall other :: other != key ==> Find(r, other) == Find(form, other)
  {
    if form == [] then [Entry(key, v)]
    else if form[0].key == key then [Entry(key, v)] + form[1..]
    else [form[0]] + Set(form[1..], key, v)
  }

  const InitialForm: seq<Entry> := [
    Entry(Username, Text("")), Entry(Password, Text("")), Entry(ConfirmPassword, Text("")),
    Entry(StudentNumber, Text("")), Entry(ClassName, Text("")), Entry(Phone, Text("")),
    Entry(College, Text("")), Entry(Email, Text("")), Entry(Avatar, Null)
  ]

  /** The form object `handleRoleChange` installs, given the values it keeps. */
  function ResetForm(username: Value, password: Value, phone: Value, email: Value, avatar: Value): seq<Entry> {
    [Entry(Username, username), Entry(Password, password), Entry(Phone, phone), Entry(Email, email),
     Entry(Avatar, avatar), Entry(StudentNumber, Text("")), Entry(ClassName, Text("")), Entry(College, Text(""))]
  }

  /** The form after a role switch: the account fields and the avatar stay, the student fields are emptied. */
  function RoleReset(form: seq<Entry>): seq<Entry> {
    ResetForm(Lookup(form, Username), Lookup(form, Password), Lookup(form, Phone), Lookup(form, Email), Lookup(form, Avatar))
  }

  /** The inline warning `handleChange` shows for a new value of `name`. */
  function ChangeWarning(role: string, name: Field, value: string): (m: Option<Message>)
    ensures m.Some? ==> name in {Password, StudentNumber, Email, Phone}
    ensures m == Some(PasswordRule) <==> name == Password && !Formats.ValidPassword(value)
    ensures m == Some(StudentIdRule) <==> name == StudentNumber && role == "student" && !Formats.ValidStudentId(value)
    ensures m == Some(EmailRule) <==> name == Email && !Formats.ValidEmail(value)
    ensures m == Some(PhoneRule) <==> name == Phone && !Formats.ValidPhone(value)
  {
    if name == Password then (if Formats.ValidPassword(value) then None else Some(PasswordRule))
    else if name == StudentNumber then (if role == "student" && !Formats.ValidStudentId(value) then Some(StudentIdRule) else None)
    else if name == Email then (if Formats.ValidEmail(value) then None else Some(EmailRule))
    else if name == Phone then (if Formats.ValidPhone(value) then None else Some(PhoneRule))
    else None
  }

  /** The administrator's submission: the account fields, the role, and the avatar when one was chosen. */
  function AdminSubmission(form: seq<Entry>): (r: seq<Entry>)
    ensures |r| >= 5 && r[4] == Entry(RoleField, Text("admin"))
    ensures forall e :: e in r ==> e.key in {Username, Password, Email, Phone, RoleField, Avatar}
  {
    [Entry(Username, Lookup(form, Username)), Entry(Password, Lookup(form, Password)),
     Entry(Email, Lookup(form, Email)), Entry(Phone, Lookup(form, Phone)),
     Entry(RoleField, Text("admin"))] +
    (if TruthyValue(Lookup(form, Avatar)) then [Entry(Avatar, Lookup(form, Avatar))] else [])
  }

  /** The student's submission: every truthy property of the form, in order, then the role. */
  function StudentSubmission(form: seq<Entry>): (r: seq<Entry>)
    ensures |r| > 0 && r[|r| - 1] == Entry(RoleField, Text("student"))
    ensures forall e :: e in r[..|r| - 1] <==> e in form && TruthyValue(e.value)
  {
    var r := Sequences.Filter(form, TruthyEntry) + [Entry(RoleField, Text("student"))];
    assert r[..|r| - 1] == Sequences.Filter(form, TruthyEntry);
    r
  }

  /** The first three submit checks pass: the confirmation matches, the password and the e-mail are well formed. */
  predicate AccountFieldsPass(form: seq<Entry>) {
    Lookup(form, Password) == Lookup(form, ConfirmPassword) && Formats.ValidPassword(AsText(Lookup(form, Password))) &&
    Formats.ValidEmail(AsText(Lookup(form, Email)))
  }

  /** `handleSubmit`'s checks, in order: the first that fails names the message shown. */
  function SubmitGuard(role: string, form: seq<Entry>): (m: Option<Message>)
    ensures m == Some(PasswordMismatch) <==> Lookup(form, Password) != Lookup(form, ConfirmPassword)
    ensures m == Some(PasswordInvalid) <==>
      Lookup(form, Password) == Lookup(form, ConfirmPassword) && !Formats.ValidPassword(AsText(Lookup(form, Password)))
    ensures m == Some(EmailInvalid) <==>
      Lookup(form, Password) == Lookup(form, ConfirmPassword) && Formats.ValidPassword(AsText(Lookup(form, Password))) &&
      !Formats.ValidEmail(AsText(Lookup(form, Email)))
    ensures m == Some(PhoneInvalid) <==>
      AccountFieldsPass(form) && !Formats.ValidPhone(AsText(Lookup(form, Phone)))
    ensures m == Some(StudentIdInvalid) <==>
      AccountFieldsPass(form) && Formats.ValidPhone(AsText(Lookup(form, Phone))) && role != "admin" &&
      !Formats.ValidStudentId(AsText(Lookup(form, StudentNumber)))
    ensures m == Some(MissingFields) <==>
      AccountFieldsPass(form) && Formats.ValidPhone(AsText(Lookup(form, Phone))) && role != "admin" &&
      Formats.ValidStudentId(AsText(Lookup(form, StudentNumber))) &&
      !(TruthyValue(Lookup(form, ClassName)) && TruthyValue(Lookup(form, College)))
    ensures m.None? <==>
      AccountFieldsPass(form) && Formats.ValidPhone(AsText(Lookup(form, Phone))) &&
      (role != "admin" ==>
        Formats.ValidStudentId(AsText(Lookup(form, StudentNumber))) &&
        TruthyValue(Lookup(form, ClassName)) && TruthyValue(Lookup(form, College)))
  {
    var password := Lookup(form, Password);
    if password != Lookup(form, ConfirmPassword) then Some(PasswordMismatch)
    else if !Formats.ValidPassword(AsText(password)) then Some(PasswordInvalid)
    else if !Formats.ValidEmail(AsText(Lookup(form, Email))) then Some(EmailInvalid)
    else if !Formats.ValidPhone(AsText(Lookup(form, Phone))) then Some(PhoneInvalid)
    else if role == "admin" then None
    else if !Formats.ValidStudentId(AsText(Lookup(form, StudentNumber))) then Some(StudentIdInvalid)
    else if !TruthyValue(Lookup(form, ClassName)) || !TruthyValue(Lookup(form, College)) then Some(MissingFields)
    else None
  }

  /** What `handleSubmit` ends with: the message of the failed check, or the body it posts. */
  function SubmitCheck(role: string, form: seq<Entry>): Result<seq<Entry>, Message> {
    var guard := SubmitGuard(role, form);
    if guard.Some? then Err(guard.value)
    else if role == "admin" then Ok(AdminSubmission(form))
    else Ok(StudentSubmission(form))
  }

  /**
   * A role switch drops the confirmation while the password stays a string, so the next
   * submit stops at the mismatch until the confirmation is typed again.
   */
  lemma RoleChangeForcesRetype(form: seq<Entry>, role: string)
    requires Lookup(form, Password).Text?
    ensures SubmitCheck(role, RoleReset(form)) == Err(PasswordMismatch)
  {
    var (u, p, ph, e, a) := (Lookup(form, Username), Lookup(form, Password), Lookup(form, Phone), Lookup(form, Email), Lookup(form, Avatar));
    RoleResetKeeps(u, p, ph, e, a);
    RoleResetDropsConfirmation(u, p, ph, e, a);
  }

  lemma {:induction false} FindAt(form: seq<Entry>, key: Field, i: nat)
    requires i < |form| && form[i].key == key
    requires forall j :: 0 <= j < i ==> form[j].key != key
    ensures Find(form, key) == Some(form[i].value)
  {
    if i > 0 {
      FindAt(form[1..], key, i - 1);
    }
  }

  lemma {:induction false} FindAbsent(form: seq<Entry>, key: Field)
    requires forall j :: 0 <= j < |form| ==> form[j].key != key
    ensures Find(form, key).None?
  {
    if form != [] {
      FindAbsent(form[1..], key);
    }
  }

  /** A role switch keeps the account fields and the avatar. */
  lemma RoleResetKeeps(username: Value, password: Value, phone: Value, email: Value, avatar: Value)
    ensures var r := ResetForm(username, password, phone, email, avatar);
      Lookup(r, Username) == username && Lookup(r, Password) == password &&
      Lookup(r, Phone) == phone && Lookup(r, Email) == email && Lookup(r, Avatar) == avatar
  {
    var r := ResetForm(username, password, phone, email, avatar);
    FindAt(r, Username, 0);
    FindAt(r, Password, 1);
    FindAt(r, Phone, 2);
    FindAt(r, Email, 3);
    FindAt(r, Avatar, 4);
  }

  /** A role switch empties the student fields. */
  lemma RoleResetClears(username: Value, password: Value, phone: Value, email: Value, avatar: Value, key: Field)
    requires key == StudentNumber || key == ClassName || key == College
    ensures Lookup(ResetForm(username, password, phone, email, avatar), key) == Text("")
  {
    var r := ResetForm(username, password, phone, email, avatar);
    FindAt(r, key, if key == StudentNumber then 5 else if key == ClassName then 6 else 7);
  }

  /** A role switch drops the password confirmation. */
  lemma RoleResetDropsConfirmation(username: Value, password: Value, phone: Value, email: Value, avatar: Value)
    ensures Find(ResetForm(username, password, phone, email, avatar), ConfirmPassword).None?
  {
    FindAbsent(ResetForm(username, password, phone, email, avatar), ConfirmPassword);
  }

  // ----- the student submission carries what the server's student checks need -----

  lemma FindCons(x: Entry, rest: seq<Entry>, key: Field)
    ensures Find([x] + rest, key) == if x.key == key then Some(x.value) else Find(rest, key)
  {
    assert ([x] + rest)[1..] == rest;
  }

  lemma {:induction false} FindAppend(a: seq<Entry>, b: seq<Entry>, key: Field)
    ensures Find(a + b, key) == if Find(a, key).Some? then Find(a, key) else Find(b, key)
  {
    if a != [] {
      assert (a + b)[0] == a[0] && (a + b)[1..] == a[1..] + b;
      FindAppend(a[1..], b, key);
    } else {
      assert a + b == b;
    }
  }

  /** Keeping the truthy properties keeps the value of every truthy key. */
  lemma {:induction false} FindFilter(form: seq<Entry>, key: Field)
    requires TruthyValue(Lookup(form, key))
    ensures Find(Sequences.Filter(form, TruthyEntry), key) == Find(form, key)
  {
    var x := form[0];
    assert form == [x] + form[1..];
    Sequences.FilterCons(x, form[1..], TruthyEntry);
    var rest := Sequences.Filter(form[1..], TruthyEntry);
    if x.key != key {
      FindFilter(form[1..], key);
    }
    if TruthyEntry(x) {
      FindCons(x, rest, key);
    } else {
      assert [] + rest == rest;
    }
  }

  /** A text without '@' is not an email address. */
  lemma NoAtIsNoEmail(s: string)
    requires forall k :: 0 <= k < |s| ==> s[k] != '@'
    ensures !Formats.ValidEmail(s)
  {
  }

  /** No check of the page accepts what an empty or missing field reads as. */
  lemma FalsyFailsChecks(v: Value)
    requires !TruthyValue(v)
    ensures var s := AsText(v);
      !Formats.ValidPassword(s) && !Formats.ValidEmail(s) && !Formats.ValidPhone(s) && !Formats.ValidStudentId(s)
  {
    match v
    case Undefined => UndefinedFailsChecks();
    case Null => NullFailsChecks();
    case Text(_) =>
  }

  /** The text a missing field reads as fails every check. */
  lemma UndefinedFailsChecks()
    ensures !Formats.ValidPassword("undefined") && !Formats.ValidEmail("undefined")
    ensures !Formats.ValidPhone("undefined") && !Formats.ValidStudentId("undefined")
  {
    LowerWordFailsChecks("undefined");
  }

  /** The text a null field reads as fails every check. */
  lemma NullFailsChecks()
    ensures !Formats.ValidPassword("null") && !Formats.ValidEmail("null")
    ensures !Formats.ValidPhone("null") && !Formats.ValidStudentId("null")
  {
    LowerWordFailsChecks("null");
  }

  /** A word of lower-case letters only is neither a password, an address, a mobile number nor a student number. */
  lemma LowerWordFailsChecks(s: string)
    requires s != [] && forall k :: 0 <= k < |s| ==> Formats.IsLower(s[k])
    ensures !Formats.ValidPassword(s) && !Formats.ValidEmail(s) && !Formats.ValidPhone(s) && !Formats.ValidStudentId(s)
  {
    assert Formats.IsLower(s[0]);
    NoAtIsNoEmail(s);
  }

  /** A student's form that passes the checks has all six fields the server requires of a student filled. */
  lemma PassedGuardFillsStudentFields(role: string, form: seq<Entry>)
    requires role != "admin" && SubmitGuard(role, form).None?
    ensures TruthyValue(Lookup(form, Password)) && TruthyValue(Lookup(form, Email)) && TruthyValue(Lookup(form, Phone))
    ensures TruthyValue(Lookup(form, StudentNumber)) && TruthyValue(Lookup(form, ClassName)) && TruthyValue(Lookup(form, College))
  {
    if !TruthyValue(Lookup(form, Password)) { FalsyFailsChecks(Lookup(form, Password)); }
    if !TruthyValue(Lookup(form, Email)) { FalsyFailsChecks(Lookup(form, Email)); }
    if !TruthyValue(Lookup(form, Phone)) { FalsyFailsChecks(Lookup(form, Phone)); }
    if !TruthyValue(Lookup(form, StudentNumber)) { FalsyFailsChecks(Lookup(form, StudentNumber)); }
  }

  /** The student's submission carries every filled field of the form with its value. */
  lemma StudentSubmissionCarries(form: seq<Entry>, key: Field)
    requires TruthyValue(Lookup(form, key))
    ensures Lookup(StudentSubmission(form), key) == Lookup(form, key)
  {
    FindFilter(form, key);
    FindAppend(Sequences.Filter(form, TruthyEntry), [Entry(RoleField, Text("student"))], key);
  }

  /** The `Object.keys(formData).forEach` loop: append every truthy property, in key order. */
  method CollectTruthy(form: seq<Entry>) returns (data: seq<Entry>)
    ensures data == Sequences.Filter(form, TruthyEntry)
  {
    data := [];
    var i := 0;
    while i < |form|
      invariant 0 <= i <= |form|
      invariant data == Sequences.Filter(form[..i], TruthyEntry)
    {
      assert form[..i + 1][..i] == form[..i];
      if TruthyValue(form[i].value) {
        data := data + [form[i]];
      }
      i := i + 1;
    }
    assert form[..i] == form;
  }

  /** The page's state. */
  class RegisterForm {
    var role: string
    var form: seq<Entry>
    var error: Option<Message>

    constructor()
      ensures role == "student" && form == InitialForm && error.None?
    {
      role := "student";
      form := InitialForm;
      error := None;
    }

    /** `handleChange`: store the value, then warn if the field fails its check. */
    method HandleChange(name: Field, value: string)
      modifies this
      ensures form == Set(old(form), name, Text(value)) && role == old(role)
      ensures error == ChangeWarning(role, name, value)
    {
      form := Set(form, name, Text(value));
      error := None;
      error := ChangeWarning(role, name, value);
    }

    /** `handleAvatarChange`: a file over the size limit is refused and leaves the form as it was. */
    method HandleAvatarChange(file: Option<Value>)
      requires file.Some? ==> file.value.FileValue?
      modifies this
      ensures role == old(role)
      ensures file.None? ==> form == old(form) && error == old(error)
      ensures file.Some? && file.value.size > MaxAvatarSize ==> form == old(form) && error == Some(AvatarTooLarge)
      ensures file.Some? && file.value.size <= MaxAvatarSize ==>
        form == Set(old(form), Avatar, file.value) && error == old(error)
    {
      if file.Some? {
        if file.value.size > MaxAvatarSize {
          error := Some(AvatarTooLarge);
          return;
        }
        form := Set(form, Avatar, file.value);
      }
    }

    /** `handleRoleChange`. */
    method HandleRoleChange(selected: string)
      modifies this
      ensures role == selected && form == RoleReset(old(form)) && error.None?
    {
      role := selected;
      error := None;
      form := RoleReset(form);
    }

    /**
     * `handleSubmit`: the checks stop at the first failure, whose message is shown; when
     * they pass, the body to post is built and the message is cleared. The form is unchanged.
     */
    method HandleSubmit() returns (r: Result<seq<Entry>, Message>)
      modifies this
      ensures r == SubmitCheck(role, form)
      ensures role == old(role) && form == old(form)
      ensures error == (if r.Err? then Some(r.error) else None)
    {
      var guard := SubmitGuard(role, form);
      if guard.Some? {
        error := guard;
        return Err(guard.value);
      }
      error := None;
      var data: seq<Entry> := [];
      if role == "admin" {
        data := [Entry(Username, Lookup(form, Username)), Entry(Password, Lookup(form, Password)),
                 Entry(Email, Lookup(form, Email)), Entry(Phone, Lookup(form, Phone)),
                 Entry(RoleField, Text("admin"))];
        if TruthyValue(Lookup(form, Avatar)) {
          data := data + [Entry(Avatar, Lookup(form, Avatar))];
        }
        assert data == AdminSubmission(form);
      } else {
        data := CollectTruthy(form);
        data := data + [Entry(RoleField, Text("student"))];
        assert data == StudentSubmission(form);
      }
      r := Ok(data);
    }
  }
}
