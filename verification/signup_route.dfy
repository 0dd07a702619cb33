/**
  `POST /api/auth/signup`: parse the JSON body, validate an email and a
  password of at least eight characters, refuse an email already registered,
  store the bcrypt hash of the password and answer 201 with the new row's id,
  email and creation time.
 */
module SignupRoute {
  import opened Common
  import opened Accounts
  import AuthConfig

  /** The request body after `JSON.parse`: not JSON at all, JSON that is not an
      object, or an object. */
  datatype RawBody = Malformed | NotAnObject | Object(fields: map<string, JsValue>)

  const MinPasswordLength := 8

  datatype ResponseBody =
    | ErrorBody(error: string)
    | CreatedBody(id: string, email: string, createdAt: int)

  datatype Response = Response(status: int, body: ResponseBody)

  datatype Outcome = Outcome(accounts: seq<Account>, response: Response)

  /** `signupSchema.safeParse(body)`: the validated email and password. */
  function ParseSignup(body: RawBody, isEmail: string -> bool): (r: Option<(string, string)>)
    ensures r.Some? <==>
      && body.Object?
      && Field(body.fields, "email").JsString? && isEmail(Field(body.fields, "email").s)
      && Field(body.fields, "password").JsString? && |Field(body.fields, "password").s| >= MinPasswordLength
    ensures r.Some? ==> r.value == (Field(body.fields, "email").s, Field(body.fields, "password").s)
  {
    if !body.Object? then None
    else
      var email := Field(body.fields, "email");
      var password := Field(body.fields, "password");
      if email.JsString? && isEmail(email.s) && password.JsString? && |password.s| >= MinPasswordLength
      then Some((email.s, password.s))
      else None
  }

  /** The handler. `hash` is bcrypt with ten salt rounds (`None` when it
      throws), `newId` and `now` the id and timestamp the database assigns. A
      thrown error anywhere after validation, including a clash on the primary
      key, is answered 500. */
  function Post(accounts: seq<Account>, body: RawBody, isEmail: string -> bool,
                hash: string -> Option<string>, newId: string, now: int): (out: Outcome)
    ensures out.response.status in {201, 400, 409, 500}
    ensures out.response.status != 201 ==> out.accounts == accounts
    ensures body.Malformed? ==> out.response == Response(400, ErrorBody("Invalid JSON"))
    ensures !body.Malformed? && ParseSignup(body, isEmail).None? ==>
      out.response == Response(400, ErrorBody("Invalid input"))
    ensures out.response.status == 400 <==> body.Malformed? || ParseSignup(body, isEmail).None?
    ensures ParseSignup(body, isEmail).Some? ==>
      var email := ParseSignup(body, isEmail).value.0;
      var password := ParseSignup(body, isEmail).value.1;
      && (out.response.status == 409 <==> FindByEmail(accounts, email).Some?)
      && (out.response.status == 409 ==> out.response.body == ErrorBody("User with this email already exists"))
      && (out.response.status == 500 <==>
            FindByEmail(accounts, email).None? && (hash(password).None? || IdUsed(accounts, newId)))
      && (out.response.status == 500 ==> out.response.body == ErrorBody("Failed to create user"))
      && (out.response.status == 201 <==>
            FindByEmail(accounts, email).None? && hash(password).Some? && !IdUsed(accounts, newId))
      && (out.response.status == 201 ==>
            && out.accounts == accounts + [Account(newId, Some(email), hash(password), None, now)]
            && out.response.body == CreatedBody(newId, email, now))
  {
    if body.Malformed? then Outcome(accounts, Response(400, ErrorBody("Invalid JSON")))
    else
      var parsed := ParseSignup(body, isEmail);
      if parsed.None? then Outcome(accounts, Response(400, ErrorBody("Invalid input")))
      else
        var (email, password) := parsed.value;
        if FindByEmail(accounts, email).Some? then
          Outcome(accounts, Response(409, ErrorBody("User with this email already exists")))
        else
          var hashed := hash(password);
          if hashed.None? || IdUsed(accounts, newId) then
            Outcome(accounts, Response(500, ErrorBody("Failed to create user")))
          else
            Outcome(accounts + [Account(newId, Some(email), hashed, None, now)], Response(201, CreatedBody(newId, email, now)))
  }

  /** Sign-up keeps emails unique. */
  lemma PostKeepsEmailsUnique(accounts: seq<Account>, body: RawBody, isEmail: string -> bool,
                              hash: string -> Option<string>, newId: string, now: int)
    requires EmailsUnique(accounts)
    ensures EmailsUnique(Post(accounts, body, isEmail, hash, newId, now).accounts)
  {
    var out := Post(accounts, body, isEmail, hash, newId, now);
    if out.response.status == 201 {
      var email := ParseSignup(body, isEmail).value.0;
      var after := out.accounts;
      forall i, j | 0 <= i < j < |after| && after[i].email.Some?
        ensures after[i].email != after[j].email
      {
        if j == |accounts| {
          assert after[i] == accounts[i];
          assert after[j].email == Some(email);
        } else {
          assert after[i] == accounts[i] && after[j] == accounts[j];
        }
      }
    }
  }

  /** Fields other than `email` and `password` have no effect: the stored row
      never takes a username from the request. */
  lemma ExtraFieldsIgnored(accounts: seq<Account>, fields: map<string, JsValue>, key: string, value: JsValue,
                           isEmail: string -> bool, hash: string -> Option<string>, newId: string, now: int)
    requires key != "email" && key != "password"
    ensures Post(accounts, Object(fields[key := value]), isEmail, hash, newId, now)
         == Post(accounts, Object(fields), isEmail, hash, newId, now)
  {
    assert Field(fields[key := value], "email") == Field(fields, "email");
    assert Field(fields[key := value], "password") == Field(fields, "password");
  }

  /** Signing up twice with one email: the second request is refused with 409
      and changes nothing. */
  lemma SecondSignupConflicts(accounts: seq<Account>, body: RawBody, isEmail: string -> bool,
                              hash: string -> Option<string>, id1: string, id2: string, now1: int, now2: int)
    requires Post(accounts, body, isEmail, hash, id1, now1).response.status == 201
    ensures var once := Post(accounts, body, isEmail, hash, id1, now1).accounts;
      Post(once, body, isEmail, hash, id2, now2) == Outcome(once, Response(409, ErrorBody("User with this email already exists")))
  {
    var once := Post(accounts, body, isEmail, hash, id1, now1).accounts;
    var email := ParseSignup(body, isEmail).value.0;
    assert once[|accounts|].email == Some(email);
    assert FindByEmail(once, email).Some?;
  }

  /** Sign-up then sign-in: after a 201, the credentials provider accepts the
      same email and password as long as bcrypt accepts the password against
      its own hash, and yields the new row's id and email with no username. */
  lemma SignupThenAuthorize(accounts: seq<Account>, body: RawBody, isEmail: string -> bool,
                            hash: string -> Option<string>, newId: string, now: int,
                            compare: (string, string) -> Option<bool>)
    requires EmailsUnique(accounts)
    requires Post(accounts, body, isEmail, hash, newId, now).response.status == 201
    requires var password := ParseSignup(body, isEmail).value.1;
      hash(password).Some? && hash(password).value != "" && compare(password, hash(password).value) == Some(true)
    ensures var (email, password) := ParseSignup(body, isEmail).value;
      AuthConfig.Authorize(Some(AuthConfig.Credentials(email, password)),
                           Post(accounts, body, isEmail, hash, newId, now).accounts, compare)
        == Some(AuthConfig.AuthorizedUser(newId, Some(email), None))
  {
    var after := Post(accounts, body, isEmail, hash, newId, now).accounts;
    PostKeepsEmailsUnique(accounts, body, isEmail, hash, newId, now);
    AuthConfig.AuthorizeAccount(after, |accounts|, ParseSignup(body, isEmail).value.1, compare);
  }
}
