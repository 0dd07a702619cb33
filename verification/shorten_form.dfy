/**
  The client-side rules of the shorten form: the custom-slug sanitiser, the
  submit guards and their order, the submit button's disabled state, the slug
  availability status and the reset after a successful create.
 */
module ShortenForm {
  import opened Common
  import opened Toast

  // ---------------------------------------------------------------------------
  // Slug sanitiser: `value.toLowerCase().replace(/[^a-z0-9-]/g, "")`

  predicate IsUpper(c: char) {
    'A' <= c <= 'Z'
  }

  /** `toLowerCase` on one character, restricted to ASCII: `A`-`Z` map to
      `a`-`z`, everything else is unchanged. */
  function LowerChar(c: char): (r: char)
    ensures IsUpper(c) ==> r == (c as int + 32) as char
    ensures !IsUpper(c) ==> r == c
  {
    if IsUpper(c) then (c as int + 32) as char else c
  }

  /** The characters a slug may hold: `a-z`, `0-9` and `-`. */
  predicate SlugChar(c: char) {
    ('a' <= c <= 'z') || ('0' <= c <= '9') || c == '-'
  }

  predicate IsSlug(s: string) {
    forall i :: 0 <= i < |s| ==> SlugChar(s[i])
  }

  function SanitizeSlug(s: string): (r: string)
    ensures |r| <= |s|
    ensures IsSlug(r)
    decreases |s|
  {
    if |s| == 0 then ""
    else
      var c := LowerChar(s[0]);
      var rest := SanitizeSlug(s[1..]);
      if SlugChar(c) then [c] + rest else rest
  }

  lemma {:induction false} SanitizeAppend(a: string, b: string)
    ensures SanitizeSlug(a + b) == SanitizeSlug(a) + SanitizeSlug(b)
    decreases |a|
  {
    if |a| == 0 {
      assert a + b == b;
    } else {
      assert (a + b)[0] == a[0];
      assert (a + b)[1..] == a[1..] + b;
      SanitizeAppend(a[1..], b);
    }
  }

  /** A string that already is a slug comes back unchanged. */
  lemma {:induction false} SanitizeKeepsSlugs(s: string)
    requires IsSlug(s)
    ensures SanitizeSlug(s) == s
    decreases |s|
  {
    if |s| > 0 {
      assert SlugChar(s[0]) && LowerChar(s[0]) == s[0];
      SanitizeKeepsSlugs(s[1..]);
      assert s == [s[0]] + s[1..];
    }
  }

  /** Sanitising twice is sanitising once. */
  lemma SanitizeIdempotent(s: string)
    ensures SanitizeSlug(SanitizeSlug(s)) == SanitizeSlug(s)
  {
    SanitizeKeepsSlugs(SanitizeSlug(s));
  }

  /** Upper-case letters are lowered, not dropped; other non-slug characters
      are dropped and slug characters kept. */
  lemma SanitizeOneChar(c: char)
    ensures IsUpper(c) ==> SanitizeSlug([c]) == [(c as int + 32) as char]
    ensures SlugChar(c) ==> SanitizeSlug([c]) == [c]
    ensures !IsUpper(c) && !SlugChar(c) ==> SanitizeSlug([c]) == []
  {
    assert [c][1..] == [];
  }

  /** The sanitiser shortens its input by exactly the characters it drops,
      none of which is an upper-case letter. */
  lemma {:induction false} SanitizeLength(s: string)
    ensures |SanitizeSlug(s)| == |s| - |DroppedChars(s)|
    decreases |s|
  {
    if |s| > 0 {
      SanitizeLength(s[1..]);
    }
  }

  /** The characters of `s` the sanitiser drops, in order. */
  function DroppedChars(s: string): (r: string)
    ensures forall i :: 0 <= i < |r| ==> !SlugChar(r[i]) && !IsUpper(r[i])
    decreases |s|
  {
    if |s| == 0 then ""
    else if SlugChar(LowerChar(s[0])) then DroppedChars(s[1..])
    else [s[0]] + DroppedChars(s[1..])
  }

  // ---------------------------------------------------------------------------
  // Form state and the submit handler

  datatype Expiry = OneDay | OneWeek | OneMonth | ThreeMonths | OneYear | Never

  datatype SlugStatus = Available | Taken

  datatype FormState = FormState(
    longUrl: string,
    customSlug: string,
    expiry: Expiry,
    loading: bool,
    slugStatus: Option<SlugStatus>)

  /** The argument of the `create` mutation. */
  datatype CreateRequest = CreateRequest(longUrl: string, shortCode: Option<string>, expiryOption: Expiry)

  /** What `handleShorten` does: show a refusal, or call `create`. Either way
      `loading` is false again once the handler has finished. */
  datatype Submission = Refused(toast: ToastRequest) | Submitted(request: CreateRequest)

  predicate SlugMarkedTaken(state: FormState) {
    state.customSlug != "" && state.slugStatus == Some(Taken)
  }

  const LifetimeLimitToast := ToastRequest(Some("Link Limit Exceeded"),
    Some("You have reached your lifetime link creation limit."), Some(Destructive))
  const DailyLimitToast := ToastRequest(Some("Daily Limit Exceeded"),
    Some("You have reached your daily link creation limit."), Some(Destructive))
  const SlugTakenToast := ToastRequest(Some("Custom Slug Taken"),
    Some("The custom slug you entered is already taken."), Some(Destructive))

  /** `handleShorten`: lifetime limit, then daily limit, then a taken custom
      slug; only when none holds is `create` called. */
  function HandleShorten(state: FormState, linkLimitExceeded: bool, dailyLimitExceeded: bool): (r: Submission)
    ensures r.Submitted? <==> !linkLimitExceeded && !dailyLimitExceeded && !SlugMarkedTaken(state)
    ensures linkLimitExceeded ==> r == Refused(LifetimeLimitToast)
    ensures !linkLimitExceeded && dailyLimitExceeded ==> r == Refused(DailyLimitToast)
    ensures !linkLimitExceeded && !dailyLimitExceeded && SlugMarkedTaken(state) ==> r == Refused(SlugTakenToast)
    ensures r.Submitted? ==>
      && r.request.longUrl == state.longUrl
      && r.request.expiryOption == state.expiry
      && (r.request.shortCode.None? <==> state.customSlug == "")
      && (r.request.shortCode.Some? ==> r.request.shortCode.value == state.customSlug)
  {
    if linkLimitExceeded then Refused(LifetimeLimitToast)
    else if dailyLimitExceeded then Refused(DailyLimitToast)
    else if SlugMarkedTaken(state) then Refused(SlugTakenToast)
    else Submitted(CreateRequest(state.longUrl, if state.customSlug == "" then None else Some(state.customSlug), state.expiry))
  }

  /** `isShortenButtonDisabled`. */
  predicate ShortenButtonDisabled(state: FormState, linkLimitExceeded: bool, dailyLimitExceeded: bool) {
    || state.loading
    || (|state.customSlug| > 0 && state.slugStatus == Some(Taken))
    || linkLimitExceeded
    || dailyLimitExceeded
  }

  /** The button and the handler agree: an enabled button always leads to a
      `create` call, and a form whose handler would call `create` has its
      button disabled only while a request is loading. */
  lemma EnabledButtonSubmits(state: FormState, linkLimitExceeded: bool, dailyLimitExceeded: bool)
    ensures !ShortenButtonDisabled(state, linkLimitExceeded, dailyLimitExceeded) ==>
      HandleShorten(state, linkLimitExceeded, dailyLimitExceeded).Submitted?
    ensures HandleShorten(state, linkLimitExceeded, dailyLimitExceeded).Submitted? ==>
      (ShortenButtonDisabled(state, linkLimitExceeded, dailyLimitExceeded) <==> state.loading)
  {
  }

  // ---------------------------------------------------------------------------
  // Slug availability status

  /** The debounced effect on a slug change: an empty slug clears the status;
      a non-empty one re-runs the availability query and keeps the status. */
  function AfterSlugChange(slug: string, status: Option<SlugStatus>): (r: Option<SlugStatus>)
    ensures slug == "" ==> r == None
    ensures slug != "" ==> r == status
  {
    if slug == "" then None else status
  }

  /** The availability query as the component sees it. */
  datatype SlugQuery = SlugQuery(isAvailable: Option<bool>, isError: bool)

  /** The effect on a query update: data decides available/taken, an error
      clears the status, and otherwise the status stays. */
  function AfterQuery(query: SlugQuery, status: Option<SlugStatus>): (r: Option<SlugStatus>)
    ensures query.isAvailable == Some(true) ==> r == Some(Available)
    ensures query.isAvailable == Some(false) ==> r == Some(Taken)
    ensures query.isAvailable.None? && query.isError ==> r == None
    ensures query.isAvailable.None? && !query.isError ==> r == status
  {
    match query.isAvailable
    case Some(available) => Some(if available then Available else Taken)
    case None => if query.isError then None else status
  }

  /** A taken mark only comes from the query saying the slug is not available,
      and a cleared slug never blocks submission. */
  lemma TakenOnlyFromQuery(query: SlugQuery, status: Option<SlugStatus>, slug: string)
    ensures AfterQuery(query, status) == Some(Taken) ==>
      query.isAvailable == Some(false) || (query.isAvailable.None? && !query.isError && status == Some(Taken))
    ensures AfterSlugChange(slug, status) == Some(Taken) ==> slug != "" && status == Some(Taken)
  {
  }

  // ---------------------------------------------------------------------------
  // After a successful create

  const InitialExpiry := OneDay

  /** `onSuccess`: clear the form and announce the short URL. */
  function OnCreateSuccess(state: FormState, shortUrl: string): (r: (FormState, ToastRequest))
    ensures r.0.longUrl == "" && r.0.customSlug == "" && r.0.expiry == InitialExpiry && r.0.slugStatus == None
    ensures r.0.loading == state.loading
    ensures r.1 == ToastRequest(Some("Link shortened successfully!"), Some(shortUrl), None)
  {
    (state.(longUrl := "", customSlug := "", expiry := InitialExpiry, slugStatus := None),
     ToastRequest(Some("Link shortened successfully!"), Some(shortUrl), None))
  }

  /** The reset form can be submitted again unless a limit is exceeded or a
      request is still loading. */
  lemma ResetFormSubmittable(state: FormState, shortUrl: string, linkLimitExceeded: bool, dailyLimitExceeded: bool)
    ensures var cleared := OnCreateSuccess(state, shortUrl).0;
      ShortenButtonDisabled(cleared, linkLimitExceeded, dailyLimitExceeded) <==>
        cleared.loading || linkLimitExceeded || dailyLimitExceeded
  {
  }
}
