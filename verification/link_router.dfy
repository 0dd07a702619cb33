/**
  The tRPC link router: creating a link under a per-tier daily rate limit,
  listing the caller's links, reading a link's click analytics, deleting a
  link and changing its slug. The database is a finite map from link id to
  link record; each handler is one atomic transition over it. A handler that
  fails returns `Err` and no store, so a failed call leaves the store as it was.
 */
module LinkRouter {
  import opened Common
  import opened Sorting

  type LinkId = string
  type UserId = string

  /** One recorded redirect of a link. */
  datatype Click = Click(timestamp: int, ip: string, userAgent: string)

  /** A link row. `userAgent` is only written by the REST shorten handler. */
  datatype Link = Link(
    slug: string,
    originalUrl: string,
    userId: Option<UserId>,
    createdByIp: string,
    userAgent: Option<string>,
    createdAt: int,
    clicks: seq<Click>)

  type Links = map<LinkId, Link>

  /** The store-wide invariant: no two links share a slug. */
  ghost predicate SlugsUnique(links: Links) {
    forall a, b :: a in links && b in links && links[a].slug == links[b].slug ==> a == b
  }

  predicate SlugTaken(links: Links, slug: string) {
    exists k :: k in links && links[k].slug == slug
  }

  /** The second unique index: `findUnique({ where: { originalUrl } })` in the
      REST shorten handler is only accepted on a unique field, so no two links
      share a destination URL. */
  ghost predicate UrlsUnique(links: Links) {
    forall a, b :: a in links && b in links && links[a].originalUrl == links[b].originalUrl ==> a == b
  }

  predicate UrlStored(links: Links, url: string) {
    exists k :: k in links && links[k].originalUrl == url
  }

  /** The signed-in user of a request, as the session reports it. */
  datatype Session = Session(userId: UserId, subscriptionPlan: string)

  /** The daily limits read from the environment. */
  datatype RateLimits = RateLimits(anonymous: int, free: int, pro: int)

  /** The validated input of `create`. */
  datatype LinkInput = LinkInput(url: string, slug: Option<string>)

  const FallbackIp := "127.0.0.1"
  const GeneratedSlugLength := 8
  const MinSlugLength := 3
  const MaxSlugLength := 32
  const AnalyticsClickLimit := 1000

  predicate SlugLengthOk(slug: string) {
    MinSlugLength <= |slug| <= MaxSlugLength
  }

  /** The protected-procedure guard: a request without a (non-empty) user id
      is UNAUTHORIZED before its input is even looked at. */
  predicate Authenticated(caller: Option<UserId>) {
    Truthy(caller)
  }

  /** The `linkInput` schema: a URL and an optional slug of 3 to 32 characters. */
  function ParseLinkInput(url: string, slug: Option<string>, isUrl: string -> bool): (r: Result<LinkInput, TrpcCode>)
    ensures r.Ok? <==> isUrl(url) && (slug.Some? ==> SlugLengthOk(slug.value))
    ensures r.Ok? ==> r.value == LinkInput(url, slug)
    ensures r.Err? ==> r.error == BadRequest
  {
    if !isUrl(url) then Err(BadRequest)
    else if slug.Some? && !SlugLengthOk(slug.value) then Err(BadRequest)
    else Ok(LinkInput(url, slug))
  }

  /** The daily limit that applies to a caller. */
  function ApplicableLimit(session: Option<Session>, limits: RateLimits): (r: int)
    ensures (session.None? || session.value.userId == "") ==> r == limits.anonymous
    ensures session.Some? && session.value.userId != "" && session.value.subscriptionPlan == "pro" ==> r == limits.pro
    ensures session.Some? && session.value.userId != "" && session.value.subscriptionPlan != "pro" ==> r == limits.free
  {
    var userId := if session.Some? then Some(session.value.userId) else None;
    if Truthy(userId) then
      if session.value.subscriptionPlan == "pro" then limits.pro else limits.free
    else limits.anonymous
  }

  datatype Created = Created(links: Links, id: LinkId, link: Link)

  /** `link.create`: validate the input, enforce the daily limit, then slug
      uniqueness, then insert; the insert throws when the id or the URL is
      already stored. `createdToday` is the count of today's links of
      this user or IP; `generatedSlug` is the random 8-character slug used when
      none is supplied; `newId` is the id the database assigns. */
  function Create(
    links: Links, session: Option<Session>, forwardedFor: Option<string>,
    url: string, slug: Option<string>, isUrl: string -> bool,
    createdToday: nat, limits: RateLimits, generatedSlug: string,
    newId: LinkId, now: int): (r: Result<Created, TrpcCode>)
    requires |generatedSlug| == GeneratedSlugLength
    ensures ParseLinkInput(url, slug, isUrl).Err? ==> r == Err(BadRequest)
    ensures ParseLinkInput(url, slug, isUrl).Ok? ==>
      (r == Err(TooManyRequests) <==> createdToday >= ApplicableLimit(session, limits))
    ensures ParseLinkInput(url, slug, isUrl).Ok? && createdToday < ApplicableLimit(session, limits) ==>
      (r == Err(Conflict) <==> SlugTaken(links, slug.GetOr(generatedSlug)))
    ensures ParseLinkInput(url, slug, isUrl).Ok? && createdToday < ApplicableLimit(session, limits)
            && !SlugTaken(links, slug.GetOr(generatedSlug)) ==>
      (r.Ok? <==> newId !in links && !UrlStored(links, url))
    ensures ParseLinkInput(url, slug, isUrl).Ok? && createdToday < ApplicableLimit(session, limits)
            && !SlugTaken(links, slug.GetOr(generatedSlug)) && UrlStored(links, url) ==>
      r == Err(InternalServerError)
    ensures ParseLinkInput(url, slug, isUrl).Ok? && createdToday < ApplicableLimit(session, limits)
            && !SlugTaken(links, slug.GetOr(generatedSlug)) && newId in links ==>
      r == Err(InternalServerError)
    ensures r.Err? ==> r.error in {BadRequest, TooManyRequests, Conflict, InternalServerError}
    ensures r.Ok? ==>
      && newId !in links
      && !UrlStored(links, url)
      && r.value.id == newId
      && r.value.links == links[newId := r.value.link]
      && r.value.link.slug == slug.GetOr(generatedSlug)
      && r.value.link.originalUrl == url
      && r.value.link.userId == (if session.Some? then Some(session.value.userId) else None)
      && r.value.link.createdByIp == forwardedFor.GetOr(FallbackIp)
      && r.value.link.userAgent == None
      && r.value.link.createdAt == now
      && r.value.link.clicks == []
    ensures r.Ok? && slug.None? ==> |r.value.link.slug| == GeneratedSlugLength
    ensures r.Ok? && SlugsUnique(links) ==> SlugsUnique(r.value.links)
    ensures r.Ok? && UrlsUnique(links) ==> UrlsUnique(r.value.links)
  {
    match ParseLinkInput(url, slug, isUrl)
    case Err(e) => Err(e)
    case Ok(input) =>
      if createdToday >= ApplicableLimit(session, limits) then Err(TooManyRequests)
      else
        var finalSlug := input.slug.GetOr(generatedSlug);
        if SlugTaken(links, finalSlug) then Err(Conflict)
        else if newId in links || UrlStored(links, input.url) then Err(InternalServerError)
        else
          var link := Link(
            finalSlug, input.url,
            if session.Some? then Some(session.value.userId) else None,
            forwardedFor.GetOr(FallbackIp), None, now, []);
          Ok(Created(links[newId := link], newId, link))
  }

  /** True when the link is owned by the caller (an unowned link is nobody's). */
  predicate OwnedBy(link: Link, caller: UserId) {
    link.userId == Some(caller)
  }

  /** `link.delete`: NOT_FOUND, then FORBIDDEN, then remove exactly that link. */
  function Delete(links: Links, caller: Option<UserId>, id: LinkId): (r: Result<Links, TrpcCode>)
    ensures !Authenticated(caller) ==> r == Err(Unauthorized)
    ensures Authenticated(caller) && id !in links ==> r == Err(NotFound)
    ensures Authenticated(caller) && id in links && !OwnedBy(links[id], caller.value) ==> r == Err(Forbidden)
    ensures r.Ok? <==> Authenticated(caller) && id in links && OwnedBy(links[id], caller.value)
    ensures r.Ok? ==> r.value.Keys == links.Keys - {id}
    ensures r.Ok? ==> forall k :: k in r.value ==> r.value[k] == links[k]
    ensures r.Ok? && UrlsUnique(links) ==> UrlsUnique(r.value)
  {
    if !Authenticated(caller) then Err(Unauthorized)
    else if id !in links then Err(NotFound)
    else if !OwnedBy(links[id], caller.value) then Err(Forbidden)
    else Ok(links - {id})
  }

  /** Create then delete: the signed-in creator of a link can delete it, and
      the store is back to what it was before the create. */
  lemma CreateThenDelete(
    links: Links, session: Session, forwardedFor: Option<string>,
    url: string, slug: Option<string>, isUrl: string -> bool,
    createdToday: nat, limits: RateLimits, generatedSlug: string,
    newId: LinkId, now: int)
    requires |generatedSlug| == GeneratedSlugLength
    requires session.userId != ""
    requires Create(links, Some(session), forwardedFor, url, slug, isUrl, createdToday, limits, generatedSlug, newId, now).Ok?
    ensures var created := Create(links, Some(session), forwardedFor, url, slug, isUrl, createdToday, limits, generatedSlug, newId, now).value;
      Delete(created.links, Some(session.userId), newId) == Ok(links)
  {
    var created := Create(links, Some(session), forwardedFor, url, slug, isUrl, createdToday, limits, generatedSlug, newId, now).value;
    assert created.links - {newId} == links;
  }

  /** A URL can be shortened by `create` only once: after a successful create,
      every later request for the same URL fails, if no earlier check refuses
      it then by the unique index on `originalUrl`. */
  lemma SecondCreateSameUrlFails(
    links: Links, session: Option<Session>, forwardedFor: Option<string>,
    url: string, slug: Option<string>, isUrl: string -> bool,
    createdToday: nat, limits: RateLimits, generatedSlug: string,
    newId: LinkId, now: int,
    slug2: Option<string>, createdToday2: nat, generatedSlug2: string, newId2: LinkId, now2: int)
    requires |generatedSlug| == GeneratedSlugLength && |generatedSlug2| == GeneratedSlugLength
    requires Create(links, session, forwardedFor, url, slug, isUrl, createdToday, limits, generatedSlug, newId, now).Ok?
    ensures var once := Create(links, session, forwardedFor, url, slug, isUrl, createdToday, limits, generatedSlug, newId, now).value.links;
      Create(once, session, forwardedFor, url, slug2, isUrl, createdToday2, limits, generatedSlug2, newId2, now2).Err?
  {
    var once := Create(links, session, forwardedFor, url, slug, isUrl, createdToday, limits, generatedSlug, newId, now).value.links;
    assert once[newId].originalUrl == url;
    assert UrlStored(once, url);
  }

  /** Every slug `create` stores passes the slug schema of `update`: a given
      slug has 3 to 32 characters, a generated one has 8. */
  lemma CreatedSlugValid(
    links: Links, session: Option<Session>, forwardedFor: Option<string>,
    url: string, slug: Option<string>, isUrl: string -> bool,
    createdToday: nat, limits: RateLimits, generatedSlug: string,
    newId: LinkId, now: int)
    requires |generatedSlug| == GeneratedSlugLength
    requires Create(links, session, forwardedFor, url, slug, isUrl, createdToday, limits, generatedSlug, newId, now).Ok?
    ensures SlugLengthOk(Create(links, session, forwardedFor, url, slug, isUrl, createdToday, limits, generatedSlug, newId, now).value.link.slug)
  {
  }

  /** The creator of a link can re-save its slug right after creating it, and
      nothing changes. */
  lemma CreatedLinkResavable(
    links: Links, session: Session, forwardedFor: Option<string>,
    url: string, slug: Option<string>, isUrl: string -> bool,
    createdToday: nat, limits: RateLimits, generatedSlug: string,
    newId: LinkId, now: int)
    requires SlugsUnique(links)
    requires |generatedSlug| == GeneratedSlugLength
    requires session.userId != ""
    requires Create(links, Some(session), forwardedFor, url, slug, isUrl, createdToday, limits, generatedSlug, newId, now).Ok?
    ensures var created := Create(links, Some(session), forwardedFor, url, slug, isUrl, createdToday, limits, generatedSlug, newId, now).value;
      Update(created.links, Some(session.userId), newId, created.link.slug) == Ok(created.links)
  {
    var created := Create(links, Some(session), forwardedFor, url, slug, isUrl, createdToday, limits, generatedSlug, newId, now).value;
    CreatedSlugValid(links, Some(session), forwardedFor, url, slug, isUrl, createdToday, limits, generatedSlug, newId, now);
    UpdateToOwnSlugSucceeds(created.links, session.userId, newId);
  }

  /** Another link than `id` already holds `slug`. */
  predicate SlugHeldByOther(links: Links, slug: string, id: LinkId) {
    exists k :: k in links && links[k].slug == slug && k != id
  }

  /** `link.update`: input check, NOT_FOUND, FORBIDDEN, CONFLICT in that order;
      only the slug of that one link changes. */
  function Update(links: Links, caller: Option<UserId>, id: LinkId, slug: string): (r: Result<Links, TrpcCode>)
    ensures !Authenticated(caller) ==> r == Err(Unauthorized)
    ensures Authenticated(caller) && !SlugLengthOk(slug) ==> r == Err(BadRequest)
    ensures Authenticated(caller) && SlugLengthOk(slug) && id !in links ==> r == Err(NotFound)
    ensures Authenticated(caller) && SlugLengthOk(slug) && id in links && !OwnedBy(links[id], caller.value) ==>
      r == Err(Forbidden)
    ensures Authenticated(caller) && SlugLengthOk(slug) && id in links && OwnedBy(links[id], caller.value) ==>
      (r == Err(Conflict) <==> SlugHeldByOther(links, slug, id))
    ensures r.Ok? <==>
      && Authenticated(caller) && SlugLengthOk(slug) && id in links
      && OwnedBy(links[id], caller.value) && !SlugHeldByOther(links, slug, id)
    ensures r.Ok? ==>
      && id in links
      && r.value.Keys == links.Keys
      && r.value[id] == links[id].(slug := slug)
      && forall k :: k in links && k != id ==> r.value[k] == links[k]
    ensures r.Ok? && SlugsUnique(links) ==> SlugsUnique(r.value)
    ensures r.Ok? && UrlsUnique(links) ==> UrlsUnique(r.value)
  {
    if !Authenticated(caller) then Err(Unauthorized)
    else if !SlugLengthOk(slug) then Err(BadRequest)
    else if id !in links then Err(NotFound)
    else if !OwnedBy(links[id], caller.value) then Err(Forbidden)
    else if SlugHeldByOther(links, slug, id) then Err(Conflict)
    else Ok(links[id := links[id].(slug := slug)])
  }

  /** Re-saving a link's current slug is never a conflict when slugs are unique. */
  lemma UpdateToOwnSlugSucceeds(links: Links, caller: UserId, id: LinkId)
    requires SlugsUnique(links)
    requires caller != ""
    requires id in links && OwnedBy(links[id], caller)
    requires SlugLengthOk(links[id].slug)
    ensures Update(links, Some(caller), id, links[id].slug) == Ok(links)
  {
    assert !SlugHeldByOther(links, links[id].slug, id);
    assert links[id := links[id].(slug := links[id].slug)] == links;
  }

  /** A row of `getUserLinks`: the link and its click count. */
  datatype LinkRow = LinkRow(id: LinkId, link: Link, clickCount: nat)

  function CreatedAtOf(row: LinkRow): int {
    row.link.createdAt
  }

  function RowIds(rows: seq<LinkRow>): set<LinkId> {
    set i | 0 <= i < |rows| :: rows[i].id
  }

  ghost function OwnedIds(links: Links, caller: UserId): set<LinkId> {
    set k | k in links && OwnedBy(links[k], caller)
  }

  /** One row per link of `owner`, in no particular order. */
  method CollectOwnedRows(links: Links, owner: UserId) returns (rows: seq<LinkRow>)
    ensures RowIds(rows) == OwnedIds(links, owner)
    ensures |rows| == |RowIds(rows)|
    ensures RowsFromStore(links, rows)
  {
    rows := [];
    var todo := links.Keys;
    ghost var seen: set<LinkId> := {};
    while todo != {}
      invariant todo !! seen && todo + seen == links.Keys
      invariant RowIds(rows) == OwnedIds(links, owner) * seen
      invariant |rows| == |RowIds(rows)|
      invariant RowsFromStore(links, rows)
      decreases todo
    {
      var k :| k in todo;
      if OwnedBy(links[k], owner) {
        AddOwnedRow(links, owner, rows, seen, k);
        rows := rows + [LinkRow(k, links[k], |links[k].clicks|)];
      } else {
        OwnedStep(links, owner, seen, k);
      }
      todo := todo - {k};
      seen := seen + {k};
    }
  }

  /** `link.getUserLinks`: exactly the caller's links, one row each, newest first. */
  method GetUserLinks(links: Links, caller: Option<UserId>) returns (r: Result<seq<LinkRow>, TrpcCode>)
    ensures !Authenticated(caller) ==> r == Err(Unauthorized)
    ensures Authenticated(caller) ==> r.Ok?
    ensures r.Ok? ==> RowIds(r.value) == OwnedIds(links, caller.value)
    ensures r.Ok? ==> |r.value| == |OwnedIds(links, caller.value)|
    ensures r.Ok? ==> RowsFromStore(links, r.value)
    ensures r.Ok? ==> SortedDesc(r.value, CreatedAtOf)
  {
    if !Authenticated(caller) {
      return Err(Unauthorized);
    }
    var rows := CollectOwnedRows(links, caller.value);
    var sorted := SortDesc(rows, CreatedAtOf);
    PermutationKeepsRows(links, rows, sorted);
    return Ok(sorted);
  }

  lemma OwnedStep(links: Links, owner: UserId, seen: set<LinkId>, k: LinkId)
    requires k in links
    ensures OwnedBy(links[k], owner) ==> OwnedIds(links, owner) * (seen + {k}) == OwnedIds(links, owner) * seen + {k}
    ensures !OwnedBy(links[k], owner) ==> OwnedIds(links, owner) * (seen + {k}) == OwnedIds(links, owner) * seen
  {
  }

  /** One step of the collection loop for a link of the owner. */
  lemma AddOwnedRow(links: Links, owner: UserId, rows: seq<LinkRow>, seen: set<LinkId>, k: LinkId)
    requires k in links && k !in seen && OwnedBy(links[k], owner)
    requires RowIds(rows) == OwnedIds(links, owner) * seen
    requires |rows| == |RowIds(rows)|
    requires RowsFromStore(links, rows)
    ensures var grown := rows + [LinkRow(k, links[k], |links[k].clicks|)];
      && RowIds(grown) == OwnedIds(links, owner) * (seen + {k})
      && |grown| == |RowIds(grown)|
      && RowsFromStore(links, grown)
  {
    var row := LinkRow(k, links[k], |links[k].clicks|);
    OwnedStep(links, owner, seen, k);
    RowIdsAppend(rows, row);
    assert k !in RowIds(rows);
    var grown := rows + [row];
    forall i | 0 <= i < |grown|
      ensures grown[i].id in links && grown[i].link == links[grown[i].id] && grown[i].clickCount == |grown[i].link.clicks|
    {
      if i < |rows| { assert grown[i] == rows[i]; }
    }
  }

  lemma RowIdsAppend(rows: seq<LinkRow>, row: LinkRow)
    ensures RowIds(rows + [row]) == RowIds(rows) + {row.id}
  {
    var both := rows + [row];
    forall k | k in RowIds(both) ensures k in RowIds(rows) + {row.id} {
      var i :| 0 <= i < |both| && both[i].id == k;
      if i < |rows| { assert both[i] == rows[i]; }
    }
    forall k | k in RowIds(rows) ensures k in RowIds(both) {
      var i :| 0 <= i < |rows| && rows[i].id == k;
      assert both[i] == rows[i];
    }
    assert both[|rows|] == row;
  }

  /** Every row shows a stored link as it is stored, with its click count. */
  ghost predicate RowsFromStore(links: Links, rows: seq<LinkRow>) {
    forall i :: 0 <= i < |rows| ==>
      && rows[i].id in links
      && rows[i].link == links[rows[i].id]
      && rows[i].clickCount == |rows[i].link.clicks|
  }

  lemma PermutationKeepsRows(links: Links, a: seq<LinkRow>, b: seq<LinkRow>)
    requires multiset(a) == multiset(b)
    requires RowsFromStore(links, a)
    ensures RowIds(a) == RowIds(b)
    ensures RowsFromStore(links, b)
  {
    forall k | k in RowIds(a) ensures k in RowIds(b) {
      var i :| 0 <= i < |a| && a[i].id == k;
      assert a[i] in multiset(b);
    }
    forall k | k in RowIds(b) ensures k in RowIds(a) {
      var i :| 0 <= i < |b| && b[i].id == k;
      assert b[i] in multiset(a);
    }
    forall i | 0 <= i < |b|
      ensures b[i].id in links && b[i].link == links[b[i].id] && b[i].clickCount == |b[i].link.clicks|
    {
      assert b[i] in multiset(a);
      var j :| 0 <= j < |a| && a[j] == b[i];
    }
  }

  function TimestampOf(c: Click): int {
    c.timestamp
  }

  /** The result of `getLinkAnalytics`: the link with its newest clicks and the
      total click count. */
  datatype Analytics = Analytics(id: LinkId, link: Link, clickCount: nat)

  /** `link.getLinkAnalytics`: NOT_FOUND, FORBIDDEN for a non-owner, otherwise
      the link with at most its 1000 newest clicks, newest first. */
  function GetLinkAnalytics(links: Links, caller: Option<UserId>, id: LinkId): (r: Result<Analytics, TrpcCode>)
    ensures !Authenticated(caller) ==> r == Err(Unauthorized)
    ensures Authenticated(caller) && id !in links ==> r == Err(NotFound)
    ensures Authenticated(caller) && id in links && !OwnedBy(links[id], caller.value) ==> r == Err(Forbidden)
    ensures r.Ok? <==> Authenticated(caller) && id in links && OwnedBy(links[id], caller.value)
    ensures r.Ok? ==>
      var all := links[id].clicks;
      var kept := r.value.link.clicks;
      && r.value.id == id
      && r.value.link == links[id].(clicks := kept)
      && r.value.clickCount == |all|
      && |kept| == Min(|all|, AnalyticsClickLimit)
      && multiset(kept) <= multiset(all)
      && SortedDesc(kept, TimestampOf)
      && (forall x, y :: x in multiset(all) - multiset(kept) && y in kept ==> x.timestamp <= y.timestamp)
  {
    if !Authenticated(caller) then Err(Unauthorized)
    else if id !in links then Err(NotFound)
    else if !OwnedBy(links[id], caller.value) then Err(Forbidden)
    else
      var link := links[id];
      Ok(Analytics(id, link.(clicks := Newest(link.clicks, TimestampOf, AnalyticsClickLimit)), |link.clicks|))
  }
}
