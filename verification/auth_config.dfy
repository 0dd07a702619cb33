/**
  The authentication configuration: the credentials provider's `authorize`,
  the profile mappers of the GitHub, Google, Discord and Twitter providers, and
  the `jwt` and `session` callbacks that carry the user's id, email and
  username from sign-in into every session.
 */
module AuthConfig {
  import opened Common
  import opened Accounts

  // ---------------------------------------------------------------------------
  // Credentials provider

  /** The user object `authorize` hands to the session machinery. */
  datatype AuthorizedUser = AuthorizedUser(id: string, email: Option<string>, username: Option<string>)

  /** `authorize(credentials)`. `credentials` is `None` when the provider
      receives nothing. `compare(password, hash)` is bcrypt's comparison, with
      `None` standing for a thrown error, which the handler turns into `null`
      as it does every other failure. */
  function Authorize(credentials: Option<map<string, JsValue>>, accounts: seq<Account>,
                     compare: (string, string) -> Option<bool>): (r: Option<AuthorizedUser>)
    ensures credentials.None? ==> r.None?
    ensures credentials.Some? && !Field(credentials.value, "email").JsString? ==> r.None?
    ensures credentials.Some? && !Field(credentials.value, "password").JsString? ==> r.None?
    ensures r.Some? ==>
      var email := Field(credentials.value, "email").s;
      var password := Field(credentials.value, "password").s;
      exists a :: a in accounts
        && a.email == Some(email)
        && r.value == AuthorizedUser(a.id, a.email, a.username)
        && Truthy(a.password)
        && compare(password, a.password.value) == Some(true)
  {
    if credentials.None? then None
    else
      var email := Field(credentials.value, "email");
      var password := Field(credentials.value, "password");
      if !email.JsString? || !password.JsString? then None
      else
        var user := FindByEmail(accounts, email.s);
        if user.None? || !Truthy(user.value.password) then None
        else if compare(password.s, user.value.password.value) != Some(true) then None
        else Some(AuthorizedUser(user.value.id, user.value.email, user.value.username))
  }

  /** The credentials record a sign-in form submits. */
  function Credentials(email: string, password: string): (r: map<string, JsValue>)
    ensures Field(r, "email") == JsString(email) && Field(r, "password") == JsString(password)
  {
    map["email" := JsString(email), "password" := JsString(password)]
  }

  /** With unique emails, signing in as the owner of row `k` succeeds exactly
      when that row has a password and bcrypt accepts the given password for
      it, and then yields that row's id, email and username. */
  lemma AuthorizeAccount(accounts: seq<Account>, k: nat, password: string,
                         compare: (string, string) -> Option<bool>)
    requires EmailsUnique(accounts)
    requires k < |accounts| && accounts[k].email.Some?
    ensures var r := Authorize(Some(Credentials(accounts[k].email.value, password)), accounts, compare);
      var a := accounts[k];
      && (r.Some? <==> Truthy(a.password) && compare(password, a.password.value) == Some(true))
      && (r.Some? ==> r.value == AuthorizedUser(a.id, a.email, a.username))
  {
    FindByEmailUnique(accounts, accounts[k].email.value, k);
  }

  /** An email no row holds never signs in. */
  lemma UnknownEmailRefused(accounts: seq<Account>, email: string, password: string,
                            compare: (string, string) -> Option<bool>)
    requires forall i :: 0 <= i < |accounts| ==> accounts[i].email != Some(email)
    ensures Authorize(Some(Credentials(email, password)), accounts, compare).None?
  {
    assert FindByEmail(accounts, email).None?;
  }

  // ---------------------------------------------------------------------------
  // OAuth profile mappers

  /** The user record a provider's `profile` callback returns. */
  datatype ProviderUser = ProviderUser(
    id: string,
    name: Option<string>,
    email: Option<string>,
    image: Option<string>,
    username: Option<string>)

  datatype GitHubProfile = GitHubProfile(id: JsValue, name: Option<string>, login: string,
                                         email: Option<string>, avatarUrl: string)

  /** GitHub: the display name falls back to the login, which is also the
      username. */
  function GitHubUser(profile: GitHubProfile): (r: ProviderUser)
    ensures r.id == ToJsString(profile.id)
    ensures r.name == Some(if profile.name.Some? then profile.name.value else profile.login)
    ensures r.email == profile.email && r.image == Some(profile.avatarUrl)
    ensures r.username == Some(profile.login)
  {
    ProviderUser(ToJsString(profile.id), Some(profile.name.GetOr(profile.login)), profile.email,
                 Some(profile.avatarUrl), Some(profile.login))
  }

  /** The part of `s` before its first `@`, i.e. `s.split("@")[0]`. */
  function BeforeAt(s: string): (r: string)
    ensures r <= s
    ensures forall i :: 0 <= i < |r| ==> r[i] != '@'
    ensures |r| < |s| ==> s[|r|] == '@'
    decreases |s|
  {
    if |s| == 0 || s[0] == '@' then "" else [s[0]] + BeforeAt(s[1..])
  }

  datatype GoogleProfile = GoogleProfile(sub: JsValue, name: JsValue, email: JsValue, picture: JsValue)

  /** Google: every field goes through `String(...)`; the username is the local
      part of the email when the email is a non-empty string, else `null`. */
  function GoogleUser(profile: GoogleProfile): (r: ProviderUser)
    ensures r.id == ToJsString(profile.sub) && r.name == Some(ToJsString(profile.name))
    ensures r.email == Some(ToJsString(profile.email)) && r.image == Some(ToJsString(profile.picture))
    ensures r.username.Some? <==> profile.email.JsString? && profile.email.s != ""
    ensures r.username.Some? ==> r.username.value == BeforeAt(profile.email.s)
  {
    var username := if JsTruthy(profile.email) && profile.email.JsString? then Some(BeforeAt(profile.email.s)) else None;
    ProviderUser(ToJsString(profile.sub), Some(ToJsString(profile.name)), Some(ToJsString(profile.email)),
                 Some(ToJsString(profile.picture)), username)
  }

  /** The Google username is the email cut at its first `@`: what remains of
      the email after it is `@` and the domain, or nothing when there is no
      `@`. */
  lemma GoogleUsernameIsLocalPart(profile: GoogleProfile)
    requires profile.email.JsString? && profile.email.s != ""
    ensures var u := GoogleUser(profile).username.value;
      var e := profile.email.s;
      && '@' !in u
      && (e == u || (|u| < |e| && e == u + "@" + e[|u| + 1..]))
  {
    var u := GoogleUser(profile).username.value;
    var e := profile.email.s;
    assert u == e[..|u|];
    if |u| < |e| {
      assert e == e[..|u|] + [e[|u|]] + e[|u| + 1..];
    }
  }

  datatype DiscordProfile = DiscordProfile(id: JsValue, username: JsValue, email: JsValue, avatar: JsValue)

  const DiscordAvatarBase := "https://cdn.discordapp.com/avatars/"

  /** Discord: the avatar URL is built only when an avatar hash is present. */
  function DiscordUser(profile: DiscordProfile): (r: ProviderUser)
    ensures r.id == ToJsString(profile.id) && r.email == Some(ToJsString(profile.email))
    ensures r.name == Some(ToJsString(profile.username)) && r.username == r.name
    ensures r.image.Some? <==> JsTruthy(profile.avatar)
    ensures r.image.Some? ==>
      r.image.value == DiscordAvatarBase + ToJsString(profile.id) + "/" + ToJsString(profile.avatar) + ".png"
  {
    var image := if JsTruthy(profile.avatar)
      then Some(DiscordAvatarBase + ToJsString(profile.id) + "/" + ToJsString(profile.avatar) + ".png")
      else None;
    ProviderUser(ToJsString(profile.id), Some(ToJsString(profile.username)), Some(ToJsString(profile.email)),
                 image, Some(ToJsString(profile.username)))
  }

  /** The `data` object of a Twitter profile. */
  datatype TwitterProfile = TwitterProfile(id: JsValue, name: JsValue, email: JsValue,
                                           profileImageUrl: JsValue, username: JsValue)

  function TwitterUser(profile: TwitterProfile): (r: ProviderUser)
    ensures r.id == ToJsString(profile.id) && r.name == Some(ToJsString(profile.name))
    ensures r.email == Some(ToJsString(profile.email)) && r.image == Some(ToJsString(profile.profileImageUrl))
    ensures r.username == Some(ToJsString(profile.username))
  {
    ProviderUser(ToJsString(profile.id), Some(ToJsString(profile.name)), Some(ToJsString(profile.email)),
                 Some(ToJsString(profile.profileImageUrl)), Some(ToJsString(profile.username)))
  }

  /** GitHub, Discord and Twitter always supply a username; Google supplies one
      exactly when the profile's email is a non-empty string, and it is then
      never longer than that email. */
  lemma ProvidersSupplyUsername(gh: GitHubProfile, g: GoogleProfile, d: DiscordProfile, t: TwitterProfile)
    ensures GitHubUser(gh).username.Some? && DiscordUser(d).username.Some? && TwitterUser(t).username.Some?
    ensures GoogleUser(g).username.Some? <==> JsTruthy(g.email) && g.email.JsString?
    ensures GoogleUser(g).username.Some? ==> |GoogleUser(g).username.value| <= |ToJsString(g.email)|
  {
  }

  // ---------------------------------------------------------------------------
  // JWT and session callbacks

  /** A `string | null | undefined` field as the JavaScript value it holds. */
  function ToJs(v: Nullable): (r: JsValue)
    ensures v.Undefined? <==> r.JsUndefined?
    ensures v.Null? <==> r.JsNull?
    ensures v.Str? <==> r.JsString?
    ensures v.Str? ==> r.s == v.s
  {
    match v
    case Undefined => JsUndefined
    case Null => JsNull
    case Str(s) => JsString(s)
  }

  /** The user the providers hand to the `jwt` callback on sign-in. */
  datatype SignInUser = SignInUser(id: Nullable, email: Nullable, username: Nullable)

  function FromAuthorized(u: AuthorizedUser): SignInUser {
    SignInUser(Str(u.id), if u.email.Some? then Str(u.email.value) else Null,
               if u.username.Some? then Str(u.username.value) else Null)
  }

  /** A JWT's claims. */
  type Token = map<string, JsValue>

  /** `jwt({ token, user })`: on sign-in the user's id, email and username are
      written into the token; other claims and later calls leave it as is. */
  function Jwt(token: Token, user: Option<SignInUser>): (r: Token)
    ensures user.None? ==> r == token
    ensures user.Some? ==>
      && Field(r, "id") == ToJs(user.value.id)
      && Field(r, "email") == ToJs(user.value.email)
      && Field(r, "username") == ToJs(user.value.username)
    ensures forall k :: k in token && k != "id" && k != "email" && k != "username" ==> k in r && r[k] == token[k]
    ensures forall k :: k in r ==> k in token || k == "id" || k == "email" || k == "username"
  {
    if user.None? then token
    else token["id" := ToJs(user.value.id)]["email" := ToJs(user.value.email)]["username" := ToJs(user.value.username)]
  }

  /** The user part of a session. */
  datatype SessionUser = SessionUser(id: JsValue, email: JsValue, username: JsValue, name: Nullable, image: Nullable)

  datatype Session = Session(user: SessionUser, expires: string)

  /** `session({ session, token })`: with a token present, its id, email and
      username claims replace the session user's; nothing else changes. */
  function SessionOf(session: Session, token: Option<Token>): (r: Session)
    ensures token.None? ==> r == session
    ensures token.Some? ==>
      && r.user.id == Field(token.value, "id")
      && r.user.email == Field(token.value, "email")
      && r.user.username == Field(token.value, "username")
    ensures r.user.name == session.user.name && r.user.image == session.user.image
    ensures r.expires == session.expires
  {
    if token.None? then session
    else
      var t := token.value;
      session.(user := session.user.(id := Field(t, "id"), email := Field(t, "email"), username := Field(t, "username")))
  }

  /** Sign-in then session: whatever claims the token held before, the session
      built from the token the `jwt` callback wrote carries the signed-in user's
      id, email and username. */
  lemma SessionCarriesSignInUser(session: Session, token: Token, user: SignInUser)
    ensures var s := SessionOf(session, Some(Jwt(token, Some(user))));
      && s.user.id == ToJs(user.id)
      && s.user.email == ToJs(user.email)
      && s.user.username == ToJs(user.username)
      && s.user.name == session.user.name
      && s.expires == session.expires
  {
  }

  /** The credentials path end to end: a successful `authorize` for row `k`
      yields a session whose id, email and username are that row's. */
  lemma CredentialsSessionIsAccount(accounts: seq<Account>, k: nat, password: string,
                                    compare: (string, string) -> Option<bool>,
                                    session: Session, token: Token)
    requires EmailsUnique(accounts)
    requires k < |accounts| && accounts[k].email.Some?
    requires Truthy(accounts[k].password) && compare(password, accounts[k].password.value) == Some(true)
    ensures var u := Authorize(Some(Credentials(accounts[k].email.value, password)), accounts, compare);
      && u.Some?
      && var s := SessionOf(session, Some(Jwt(token, Some(FromAuthorized(u.value)))));
      && s.user.id == JsString(accounts[k].id)
      && s.user.email == JsString(accounts[k].email.value)
      && s.user.username == (if accounts[k].username.Some? then JsString(accounts[k].username.value) else JsNull)
  {
    AuthorizeAccount(accounts, k, password, compare);
    var u := Authorize(Some(Credentials(accounts[k].email.value, password)), accounts, compare);
    SessionCarriesSignInUser(session, token, FromAuthorized(u.value));
  }
}
