/**
  The dashboard page's decisions: the lifetime and daily quota predicates, when
  the daily counter reset is requested, what `handleSaveUsername` submits, when
  the username dialog opens and whom the greeting names. Times are millisecond
  timestamps; the browser's local time zone is a fixed offset in milliseconds.
 */
module Dashboard {
  import opened Common
  import UserRouter
  import ShortenForm

  const LifetimeLimit := 100
  const DailyLimit := 10
  const MsPerDay := 86400000

  // ---------------------------------------------------------------------------
  // Quotas and the daily reset

  /** The local calendar day of a timestamp (floor division). */
  function LocalDay(t: int, offset: int): int {
    (t + offset) / MsPerDay
  }

  /** Local midnight of the day `now` falls on, as a timestamp. */
  function StartOfToday(now: int, offset: int): (r: int)
    ensures (r + offset) % MsPerDay == 0
    ensures LocalDay(r, offset) == LocalDay(now, offset)
    ensures r <= now < r + MsPerDay
  {
    var d := LocalDay(now, offset);
    assert (d * MsPerDay) / MsPerDay == d;
    d * MsPerDay - offset
  }

  /** `(userProfile?.totalLinksCreated ?? 0) >= lifetimeLimit`. */
  predicate LinkLimitExceeded(profile: Option<UserRouter.Profile>) {
    (if profile.Some? then profile.value.totalLinksCreated else 0) >= LifetimeLimit
  }

  /** The daily count is at the limit and the last shortening happened today. */
  predicate DailyLimitExceeded(profile: Option<UserRouter.Profile>, now: int, offset: int) {
    && (if profile.Some? then profile.value.dailyShortenCount else 0) >= DailyLimit
    && profile.Some?
    && profile.value.lastShortenDate.Some?
    && LocalDay(profile.value.lastShortenDate.value, offset) == LocalDay(now, offset)
  }

  /** The effect that calls `resetDailyCount`: the last shortening lies before
      local midnight today. */
  predicate ResetRequested(profile: Option<UserRouter.Profile>, now: int, offset: int) {
    && profile.Some?
    && profile.value.lastShortenDate.Some?
    && profile.value.lastShortenDate.value < StartOfToday(now, offset)
  }

  /** The dashboard hands both predicates to the shorten form: at the lifetime
      limit the button is disabled and the handler refuses with the lifetime
      toast, at the daily limit with the daily one; a missing profile is over
      neither limit. */
  lemma QuotasBlockShortening(profile: Option<UserRouter.Profile>, now: int, offset: int,
                              state: ShortenForm.FormState)
    ensures var link := LinkLimitExceeded(profile);
      var daily := DailyLimitExceeded(profile, now, offset);
      && (link ==> ShortenForm.HandleShorten(state, link, daily) == ShortenForm.Refused(ShortenForm.LifetimeLimitToast))
      && (!link && daily ==> ShortenForm.HandleShorten(state, link, daily) == ShortenForm.Refused(ShortenForm.DailyLimitToast))
      && (link || daily ==> ShortenForm.ShortenButtonDisabled(state, link, daily))
      && (profile.None? ==> !link && !daily)
  {
  }

  lemma BelowMultiple(x: int, d: int)
    ensures x < d * MsPerDay <==> x / MsPerDay < d
  {
    var q := x / MsPerDay;
    var r := x % MsPerDay;
    assert x == q * MsPerDay + r && 0 <= r < MsPerDay;
    if q < d {
      assert q * MsPerDay <= (d - 1) * MsPerDay;
    } else {
      assert q * MsPerDay >= d * MsPerDay;
    }
  }

  /** The reset is requested exactly when the last shortening fell on an
      earlier local day. */
  lemma ResetIffEarlierDay(profile: Option<UserRouter.Profile>, now: int, offset: int)
    requires profile.Some? && profile.value.lastShortenDate.Some?
    ensures ResetRequested(profile, now, offset) <==>
      LocalDay(profile.value.lastShortenDate.value, offset) < LocalDay(now, offset)
  {
    var last := profile.value.lastShortenDate.value;
    var d := LocalDay(now, offset);
    BelowMultiple(last + offset, d);
  }

  /** A profile that triggers the reset is never over the daily limit. */
  lemma ResetExcludesDailyLimit(profile: Option<UserRouter.Profile>, now: int, offset: int)
    ensures ResetRequested(profile, now, offset) ==> !DailyLimitExceeded(profile, now, offset)
  {
    if ResetRequested(profile, now, offset) {
      ResetIffEarlierDay(profile, now, offset);
    }
  }

  /** After `resetDailyCount` succeeds, the refetched profile is under the daily
      limit and no further reset is requested that day. */
  lemma AfterResetNotLimited(db: UserRouter.Db, caller: Option<string>, now: int, offset: int)
    requires UserRouter.ResetDailyCount(db, caller, now).Ok?
    ensures var profile := UserRouter.GetProfile(UserRouter.ResetDailyCount(db, caller, now).value.db, caller);
      && profile.Ok?
      && !DailyLimitExceeded(Some(profile.value), now, offset)
      && !ResetRequested(Some(profile.value), now, offset)
  {
    var saved := UserRouter.ResetDailyCount(db, caller, now).value;
    var profile := UserRouter.GetProfile(saved.db, caller);
    assert caller.value in saved.db.users;
    ResetIffEarlierDay(Some(profile.value), now, offset);
  }

  // ---------------------------------------------------------------------------
  // `String.prototype.trim` and the username dialog

  /** The characters `trim` removes: ECMAScript WhiteSpace and LineTerminator. */
  predicate IsJsSpace(c: char) {
    var n := c as int;
    || (9 <= n <= 13) || n == 0x20 || n == 0xA0 || n == 0x1680
    || (0x2000 <= n <= 0x200A) || n == 0x2028 || n == 0x2029
    || n == 0x202F || n == 0x205F || n == 0x3000 || n == 0xFEFF
  }

  function TrimStart(s: string): (r: string)
    ensures |r| <= |s| && r == s[|s| - |r|..]
    ensures |r| > 0 ==> !IsJsSpace(r[0])
    ensures forall i :: 0 <= i < |s| - |r| ==> IsJsSpace(s[i])
    decreases |s|
  {
    if |s| > 0 && IsJsSpace(s[0]) then TrimStart(s[1..]) else s
  }

  function TrimEnd(s: string): (r: string)
    ensures |r| <= |s| && r == s[..|r|]
    ensures |r| > 0 ==> !IsJsSpace(r[|r| - 1])
    ensures forall i :: |r| <= i < |s| ==> IsJsSpace(s[i])
    decreases |s|
  {
    if |s| > 0 && IsJsSpace(s[|s| - 1]) then TrimEnd(s[..|s| - 1]) else s
  }

  function Trim(s: string): (r: string)
    ensures |r| <= |s|
    ensures |r| > 0 ==> !IsJsSpace(r[0]) && !IsJsSpace(r[|r| - 1])
  {
    TrimEnd(TrimStart(s))
  }

  /** Where `trim` cuts: the kept part starts after the leading white space
      and is followed only by white space. */
  lemma TrimCut(s: string)
    ensures var r := Trim(s);
      var i := |s| - |TrimStart(s)|;
      && i + |r| <= |s|
      && s[i..i + |r|] == r
      && (forall k :: i + |r| <= k < |s| ==> IsJsSpace(s[k]))
  {
    var t := TrimStart(s);
    var r := TrimEnd(t);
    var i := |s| - |t|;
    SliceOfSuffix(s, i, |r|);
    forall k | i + |r| <= k < |s|
      ensures IsJsSpace(s[k])
    {
      assert s[k] == t[k - i];
    }
  }

  /** A prefix of a suffix is a middle slice. */
  lemma SliceOfSuffix(s: string, i: nat, n: nat)
    requires i + n <= |s|
    ensures s[i..][..n] == s[i..i + n]
  {
  }

  /** `trim` keeps a contiguous middle part of the input with no white space
      at either end, and drops only white space around it; it is empty exactly
      when the input is all white space. */
  lemma TrimSpec(s: string)
    ensures var r := Trim(s);
      && |r| <= |s|
      && (|r| > 0 ==> !IsJsSpace(r[0]) && !IsJsSpace(r[|r| - 1]))
      && var i := |s| - |TrimStart(s)|;
      && i + |r| <= |s|
      && s[i..i + |r|] == r
      && (forall k :: 0 <= k < i ==> IsJsSpace(s[k]))
      && (forall k :: i + |r| <= k < |s| ==> IsJsSpace(s[k]))
      && (r == "" <==> forall k :: 0 <= k < |s| ==> IsJsSpace(s[k]))
  {
    var t := TrimStart(s);
    var r := TrimEnd(t);
    var i := |s| - |t|;
    TrimCut(s);
    if |r| > 0 {
      assert r[0] == t[0];
      assert s[i] == r[0];
    }
  }

  /** The signed-in user as the auth context holds it. */
  datatype AuthUser = AuthUser(id: string, username: Nullable)

  /** `handleSaveUsername`: submit the trimmed name when it is non-empty and a
      user id is present, otherwise do nothing. */
  function HandleSaveUsername(newUsername: string, user: Option<AuthUser>): (r: Option<string>)
    ensures r.Some? <==>
      && (exists k :: 0 <= k < |newUsername| && !IsJsSpace(newUsername[k]))
      && user.Some? && user.value.id != ""
    ensures r.Some? ==> r.value == Trim(newUsername)
  {
    TrimSpec(newUsername);
    if Trim(newUsername) != "" && user.Some? && user.value.id != "" then Some(Trim(newUsername)) else None
  }

  /** A name the dashboard submits is never refused by the input schema of
      `updateUsername`, and carries no white space at either end. */
  lemma SubmittedUsernameAccepted(newUsername: string, user: Option<AuthUser>, db: UserRouter.Db)
    requires HandleSaveUsername(newUsername, user).Some?
    ensures var name := HandleSaveUsername(newUsername, user).value;
      && !IsJsSpace(name[0]) && !IsJsSpace(name[|name| - 1])
      && UserRouter.UpdateUsername(db, Some(user.value.id), name) != Err(BadRequest)
      && UserRouter.UpdateUsername(db, Some(user.value.id), name) != Err(Unauthorized)
  {
    var name := HandleSaveUsername(newUsername, user).value;
    TrimSpec(newUsername);
    assert name != "" && user.value.id != "";
    var r := UserRouter.UpdateUsername(db, Some(user.value.id), name);
    assert r.Ok? || r == Err(Conflict);
  }

  /** The render-time rule: open the dialog when auth is ready, a user is
      signed in, their username is `null`, nothing is stored locally and the
      dialog is not already open. */
  predicate OpensUsernameDialog(isAuthReady: bool, user: Option<AuthUser>, stored: Option<string>, open: bool) {
    isAuthReady && user.Some? && user.value.username == Null && !Truthy(stored) && !open
  }

  /** The dialog state after one render. */
  function DialogAfterRender(isAuthReady: bool, user: Option<AuthUser>, stored: Option<string>, open: bool): (r: bool)
    ensures r <==> open || (isAuthReady && user.Some? && user.value.username == Null && !Truthy(stored))
    ensures !open && r ==> user.Some? && user.value.username.Null?
  {
    open || OpensUsernameDialog(isAuthReady, user, stored, open)
  }

  /** A second render changes nothing: the rule reaches a fixed point. */
  lemma DialogRenderStable(isAuthReady: bool, user: Option<AuthUser>, stored: Option<string>, open: bool)
    ensures var once := DialogAfterRender(isAuthReady, user, stored, open);
      DialogAfterRender(isAuthReady, user, stored, once) == once
  {
  }

  /** `user?.username ?? usernameFromLocalStorage ?? "Guest"`. */
  function Greeting(user: Option<AuthUser>, stored: Option<string>): (r: string)
    ensures user.Some? && user.value.username.Str? ==> r == user.value.username.s
    ensures !(user.Some? && user.value.username.Str?) && stored.Some? ==> r == stored.value
    ensures !(user.Some? && user.value.username.Str?) && stored.None? ==> r == "Guest"
  {
    if user.Some? && user.value.username.Str? then user.value.username.s
    else stored.GetOr("Guest")
  }

  /** While the username dialog is being opened the greeting never shows a
      username: it falls back to "Guest", or to the empty string when an empty
      name is stored locally, since `??` only skips `null` and `undefined`. */
  lemma GreetingWhileDialogOpens(isAuthReady: bool, user: Option<AuthUser>, stored: Option<string>, open: bool)
    requires !open && DialogAfterRender(isAuthReady, user, stored, open)
    ensures Greeting(user, stored) == (if stored.None? then "Guest" else "")
  {
  }

  /** The mount effect that reads `localStorage`: the state starts as `null`
      and takes the stored item only when it is truthy, so it never holds an
      empty name. */
  function LoadStoredName(item: Option<string>): (r: Option<string>)
    ensures Truthy(item) ==> r == item
    ensures !Truthy(item) ==> r.None?
    ensures r.None? || r.value != ""
  {
    if Truthy(item) then item else None
  }

  /** On the page as it runs, where the stored name comes from the mount
      effect, the greeting is "Guest" whenever the username dialog opens. */
  lemma GuestWhileDialogOpens(isAuthReady: bool, user: Option<AuthUser>, item: Option<string>, open: bool)
    requires !open && DialogAfterRender(isAuthReady, user, LoadStoredName(item), open)
    ensures LoadStoredName(item).None?
    ensures Greeting(user, LoadStoredName(item)) == "Guest"
  {
    GreetingWhileDialogOpens(isAuthReady, user, LoadStoredName(item), open);
  }

  /** A signed-out visitor with nothing stored is greeted as "Guest", and the
      greeting is "Guest" only then or when that very name is stored or held. */
  lemma GreetingGuest(user: Option<AuthUser>, stored: Option<string>)
    ensures user.None? && stored.None? ==> Greeting(user, stored) == "Guest"
    ensures Greeting(user, stored) == "Guest" ==>
      || (user.Some? && user.value.username == Str("Guest"))
      || stored == Some("Guest")
      || stored.None?
  {
  }
}
