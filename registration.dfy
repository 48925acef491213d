/**
 * `UserRegisterSerializer`, which exists in three identical copies (the
 * hotels app, the accounts app and its API package); all three work on the
 * same `auth_user` table, since the custom user model keeps that table name.
 * Every field is a character field that strips surrounding whitespace
 * first. The field hooks `validate_username` and `validate_email` then run
 * and their errors are collected; `email`, `first_name` and `last_name` are
 * optional (`blank=True` on Django's `AbstractUser`), and a hook runs only
 * for a field the request supplies. The object hook `validate` (password
 * confirmation) runs only when the fields pass; `create` drops `password2`
 * and `create_user` inserts one user, storing "" for an omitted optional
 * field and the email as `normalize_email` rewrites it.
 */
module Registration {
  import opened Wrappers
  import opened Text
  import opened Querysets
  import opened Models

  /** The request body; None is a field the request omits. */
  datatype RegistrationData = RegistrationData(
    username: string, email: Option<string>, password: string, password2: string,
    firstName: Option<string>, lastName: Option<string>)

  function StripOpt(field: Option<string>): (r: Option<string>)
    ensures field.None? <==> r.None?
    ensures field.Some? ==> r.value == Strip(field.value)
  {
    match field
    case None => None
    case Some(x) => Some(Strip(x))
  }

  /** The request as the serializer's fields deliver it: every supplied field stripped. */
  function Cleaned(data: RegistrationData): (c: RegistrationData)
    ensures c.username == Strip(data.username) && c.email == StripOpt(data.email)
    ensures c.password == Strip(data.password) && c.password2 == Strip(data.password2)
    ensures c.firstName == StripOpt(data.firstName) && c.lastName == StripOpt(data.lastName)
  {
    RegistrationData(Strip(data.username), StripOpt(data.email), Strip(data.password), Strip(data.password2),
                     StripOpt(data.firstName), StripOpt(data.lastName))
  }

  /** Cleaning a cleaned request changes nothing. */
  lemma CleanedIdempotent(data: RegistrationData)
    ensures Cleaned(Cleaned(data)) == Cleaned(data)
  {
    StripIdempotent(data.username);
    StripIdempotent(data.password);
    StripIdempotent(data.password2);
    if data.email.Some? { StripIdempotent(data.email.value); }
    if data.firstName.Some? { StripIdempotent(data.firstName.value); }
    if data.lastName.Some? { StripIdempotent(data.lastName.value); }
  }

  /**
   * `BaseUserManager.normalize_email`: when the stripped value contains an
   * '@', it is split at the last one and the domain part is lower-cased;
   * otherwise the value is kept as given.
   */
  function NormalizeEmail(email: string): (r: string)
    ensures LastIndexOf(Strip(email), '@').None? ==> r == email
    ensures LastIndexOf(Strip(email), '@').Some? ==>
              var t, k := Strip(email), LastIndexOf(Strip(email), '@').value;
              |r| == |t| && forall i :: 0 <= i < |t| ==> r[i] == if i <= k then t[i] else Lower(t[i])
  {
    var t := Strip(email);
    match LastIndexOf(t, '@')
    case None => email
    case Some(k) => seq(|t|, i requires 0 <= i < |t| => if i <= k then t[i] else Lower(t[i]))
  }

  lemma LowerKeepsSpaceAndAt(c: char)
    ensures IsSpace(Lower(c)) <==> IsSpace(c)
    ensures Lower(c) == '@' <==> c == '@'
    ensures Lower(Lower(c)) == Lower(c)
  {
  }

  /** A normalized email is its own normalization. */
  lemma NormalizeEmailIdempotent(email: string)
    ensures NormalizeEmail(NormalizeEmail(email)) == NormalizeEmail(email)
  {
    var t := Strip(email);
    var r := NormalizeEmail(email);
    if LastIndexOf(t, '@').Some? {
      var k := LastIndexOf(t, '@').value;
      assert r[k] == '@';
      assert !IsSpace(r[0]) by {
        if k > 0 { assert r[0] == t[0]; }
      }
      assert !IsSpace(r[|r| - 1]) by {
        LowerKeepsSpaceAndAt(t[|t| - 1]);
      }
      StripUnpadded(r);
      forall j | k < j < |r| ensures r[j] != '@' {
        LowerKeepsSpaceAndAt(t[j]);
      }
      LastIndexOfAt(r, '@', k);
      var r2 := NormalizeEmail(r);
      forall i | 0 <= i < |r| ensures r2[i] == r[i] {
        if i > k { LowerKeepsSpaceAndAt(t[i]); }
      }
    }
  }

  /** The value `create_user` stores for an optional field: "" when omitted. */
  function OrBlank(field: Option<string>): (v: string)
    ensures field.None? ==> v == ""
    ensures field.Some? ==> v == field.value
  {
    match field
    case None => ""
    case Some(x) => x
  }

  datatype FieldError = UsernameTaken | EmailTaken {
    /** The field the error is reported under. */
    function Key(): string
    {
      match this
      case UsernameTaken => "username"
      case EmailTaken => "email"
    }
  }

  datatype RegistrationError = InvalidUserFields(fieldErrors: seq<FieldError>) | PasswordMismatch {
    /** The fields the error is reported under. */
    function Keys(): set<string>
    {
      match this
      case InvalidUserFields(es) => set e | e in es :: e.Key()
      case PasswordMismatch => {"password"}
    }
  }

  lemma SingleErrorKeys(e: FieldError)
    ensures InvalidUserFields([e]).Keys() == {e.Key()}
  {
    assert e in [e];
  }

  function Username(u: User): string { u.username }

  /**
   * Every stored email is in `normalize_email` form. Emails need not be
   * distinct: users registered without one all store "", and the exact-match
   * lookup of `validate_email` lets two spellings of one domain through.
   */
  ghost predicate EmailsNormalized(users: seq<User>)
  {
    forall u :: u in users ==> NormalizeEmail(u.email) == u.email
  }

  predicate UsernameExists(users: seq<User>, value: string)
  {
    exists u :: u in users && u.username == value
  }

  predicate EmailExists(users: seq<User>, value: string)
  {
    exists u :: u in users && u.email == value
  }

  /** `validate_username`. */
  function ValidateUsername(users: seq<User>, value: string): (r: Result<string, FieldError>)
    ensures r.Ok? <==> forall u :: u in users ==> u.username != value
    ensures r.Ok? ==> r.value == value
    ensures r.Err? ==> r.error == UsernameTaken
  {
    if UsernameExists(users, value) then Err(UsernameTaken) else Ok(value)
  }

  /** `validate_email`. */
  function ValidateEmail(users: seq<User>, value: string): (r: Result<string, FieldError>)
    ensures r.Ok? <==> forall u :: u in users ==> u.email != value
    ensures r.Ok? ==> r.value == value
    ensures r.Err? ==> r.error == EmailTaken
  {
    if EmailExists(users, value) then Err(EmailTaken) else Ok(value)
  }

  /** `validate`: the two passwords must agree; the error is keyed on "password". */
  function ValidatePasswords(attrs: RegistrationData): (r: Result<RegistrationData, RegistrationError>)
    ensures r.Ok? <==> attrs.password == attrs.password2
    ensures r.Ok? ==> r.value == attrs
    ensures r.Err? ==> r.error == PasswordMismatch && r.error.Keys() == {"password"}
  {
    if attrs.password != attrs.password2 then Err(PasswordMismatch) else Ok(attrs)
  }

  function ErrorsOf(r: Result<string, FieldError>): (es: seq<FieldError>)
    ensures r.Ok? <==> es == []
  {
    match r
    case Ok(_) => []
    case Err(e) => [e]
  }

  /** The request supplies an email that some user already has. */
  predicate EmailClash(users: seq<User>, email: Option<string>)
  {
    email.Some? && EmailExists(users, email.value)
  }

  /** `validate_email` runs only when the request supplies `email`. */
  function EmailErrors(users: seq<User>, email: Option<string>): (es: seq<FieldError>)
    ensures es == [] <==> !EmailClash(users, email)
    ensures es != [] ==> es == [EmailTaken]
  {
    match email
    case None => []
    case Some(e) => ErrorsOf(ValidateEmail(users, e))
  }

  /** `is_valid`: the fields strip their values, then the field hooks run in field order, then `validate`. */
  function ValidateRegistration(users: seq<User>, data: RegistrationData)
    : (r: Result<RegistrationData, RegistrationError>)
    ensures r.Ok? <==>
              !UsernameExists(users, Strip(data.username)) && !EmailClash(users, StripOpt(data.email))
              && Strip(data.password) == Strip(data.password2)
    ensures r.Ok? ==> r.value == Cleaned(data)
    ensures UsernameExists(users, Strip(data.username)) ==> r.Err? && "username" in r.error.Keys()
    ensures EmailClash(users, StripOpt(data.email)) ==> r.Err? && "email" in r.error.Keys()
    ensures data.email.None? ==> r.Err? ==> "email" !in r.error.Keys()
    ensures r.Err? && !UsernameExists(users, Strip(data.username)) ==> "username" !in r.error.Keys()
    ensures r.Err? && !EmailClash(users, StripOpt(data.email)) ==> "email" !in r.error.Keys()
    ensures (!UsernameExists(users, Strip(data.username)) && !EmailClash(users, StripOpt(data.email))
             && Strip(data.password) != Strip(data.password2)) ==> r == Err(PasswordMismatch)
  {
    var d := Cleaned(data);
    var fieldErrors := ErrorsOf(ValidateUsername(users, d.username)) + EmailErrors(users, d.email);
    if fieldErrors != [] then
      var e := InvalidUserFields(fieldErrors);
      assert UsernameExists(users, d.username) ==> "username" in e.Keys() by {
        if UsernameExists(users, d.username) {
          assert fieldErrors[0] == UsernameTaken && fieldErrors[0] in fieldErrors;
        }
      }
      assert !UsernameExists(users, d.username) ==> "username" !in e.Keys() by {
        if !UsernameExists(users, d.username) {
          assert fieldErrors == [EmailTaken];
          SingleErrorKeys(EmailTaken);
        }
      }
      assert !EmailClash(users, d.email) ==> "email" !in e.Keys() by {
        if !EmailClash(users, d.email) {
          assert fieldErrors == [UsernameTaken];
          SingleErrorKeys(UsernameTaken);
        }
      }
      assert EmailClash(users, d.email) ==> "email" in e.Keys() by {
        if EmailClash(users, d.email) {
          var last := fieldErrors[|fieldErrors| - 1];
          assert last == EmailTaken && last in fieldErrors;
        }
      }
      Err(e)
    else ValidatePasswords(d)
  }

  /** Whitespace around the values never changes the outcome. */
  lemma PaddingIgnored(users: seq<User>, data: RegistrationData)
    ensures ValidateRegistration(users, Cleaned(data)) == ValidateRegistration(users, data)
  {
    CleanedIdempotent(data);
  }

  /** A padded username is the taken one; passwords that differ only in padding agree. */
  lemma PaddingExamples()
    ensures ValidateRegistration([User(1, "bob", "", "pw", "", "")],
                                 RegistrationData(" bob", None, "pw", "pw", None, None)).Err?
    ensures ValidateRegistration([], RegistrationData("bob", None, "pw ", "pw", None, None)).Ok?
  {
    assert " bob"[1..] == "bob";
    StripUnpadded("bob");
    assert Strip(" bob") == "bob";
    assert "pw "[..2] == "pw";
    StripUnpadded("pw");
    assert Strip("pw ") == "pw";
  }

  /** `create`: `password2` is dropped and `create_user` builds the user from the validated fields. */
  function NewUser(id: nat, attrs: RegistrationData): (u: User)
    ensures u.id == id && u.username == attrs.username && u.password == attrs.password
    ensures u.email == NormalizeEmail(OrBlank(attrs.email))
    ensures u.firstName == OrBlank(attrs.firstName) && u.lastName == OrBlank(attrs.lastName)
  {
    User(id, attrs.username, NormalizeEmail(OrBlank(attrs.email)), attrs.password,
         OrBlank(attrs.firstName), OrBlank(attrs.lastName))
  }

  /**
   * After a registration, a second one is refused when its stripped username
   * is the stored one, or its stripped email is the email as stored.
   */
  lemma SecondRegistrationRejected(users: seq<User>, id: nat, attrs: RegistrationData, second: RegistrationData)
    requires Strip(second.username) == attrs.username
             || (second.email.Some? && Strip(second.email.value) == NewUser(id, attrs).email)
    ensures ValidateRegistration(users + [NewUser(id, attrs)], second).Err?
  {
    assert NewUser(id, attrs) in users + [NewUser(id, attrs)];
  }

  /**
   * The email lookup is exact but the stored email is normalized: "a@X.com"
   * is stored as "a@x.com", so a second "a@X.com" finds no one and is
   * accepted, and two users then share one email.
   */
  lemma NormalizedEmailAdmitsDuplicate()
    ensures var alice := RegistrationData("alice", Some("a@X.com"), "pw", "pw", None, None);
            var bob := RegistrationData("bob", Some("a@X.com"), "pw", "pw", None, None);
            var a := ValidateRegistration([], alice);
            a.Ok? && NewUser(1, a.value).email == "a@x.com"
            && var b := ValidateRegistration([NewUser(1, a.value)], bob);
               b.Ok? && NewUser(2, b.value).email == "a@x.com"
  {
    var alice := RegistrationData("alice", Some("a@X.com"), "pw", "pw", None, None);
    var bob := RegistrationData("bob", Some("a@X.com"), "pw", "pw", None, None);
    MixedCaseDomain();
    StripUnpadded("alice");
    StripUnpadded("bob");
    StripUnpadded("pw");
    assert Cleaned(alice) == alice;
    assert Cleaned(bob) == bob;
    var u := NewUser(1, alice);
    assert u.email == "a@x.com";
    assert u.email != "a@X.com" by { assert u.email[2] != "a@X.com"[2]; }
    assert !EmailClash([u], bob.email);
    assert !UsernameExists([u], "bob");
  }

  /** `normalize_email("a@X.com")` is "a@x.com". */
  lemma MixedCaseDomain()
    ensures Strip("a@X.com") == "a@X.com"
    ensures NormalizeEmail("a@X.com") == "a@x.com"
  {
    var e := "a@X.com";
    StripUnpadded(e);
    LastIndexOfAt(e, '@', 1);
    var n := NormalizeEmail(e);
    forall i | 0 <= i < 7 ensures n[i] == "a@x.com"[i] {
      LowerKeepsSpaceAndAt(e[i]);
    }
  }

  /** Two registrations that omit the email are both accepted, and both users store "". */
  lemma RegistrationsWithoutEmail(users: seq<User>, id: nat, first: RegistrationData, second: RegistrationData)
    requires first.email.None? && second.email.None?
    requires ValidateRegistration(users, first).Ok?
    requires !UsernameExists(users, Strip(second.username)) && Strip(second.username) != Strip(first.username)
    requires Strip(second.password) == Strip(second.password2)
    ensures var u := NewUser(id, ValidateRegistration(users, first).value);
            var v := ValidateRegistration(users + [u], second);
            v.Ok? && u.email == "" && NewUser(id + 1, v.value).email == ""
  {
    var u := NewUser(id, ValidateRegistration(users, first).value);
    StripUnpadded("");
    forall w | w in users + [u] ensures w.username != Strip(second.username) {
      if w in users {
        assert !(w in users && w.username == Strip(second.username));
      }
    }
  }

  /**
   * Registering an accepted request keeps usernames distinct and every
   * stored email normalized.
   */
  lemma RegistrationKeepsUserInvariants(users: seq<User>, id: nat, data: RegistrationData)
    requires DistinctBy(users, Username) && EmailsNormalized(users)
    requires ValidateRegistration(users, data).Ok?
    ensures var u := NewUser(id, ValidateRegistration(users, data).value);
            DistinctBy(users + [u], Username) && EmailsNormalized(users + [u])
  {
    var u := NewUser(id, ValidateRegistration(users, data).value);
    DistinctByAppend(users, u, Username);
    NormalizeEmailIdempotent(OrBlank(Cleaned(data).email));
  }
}
