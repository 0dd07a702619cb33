/**
  The REST `POST /api/shorten` handler: URL check, duplicate-URL check,
  custom-slug conflict check, insert, and the short URL in the response.
  It writes the same link rows as the link router. The database's unique
  indexes on `slug` and `originalUrl` and its primary key are part of the
  store. The duplicate-URL check runs before the insert, so only the slug
  index or the key can refuse the row: the insert throws, and the handler's
  catch-all answers 500.
 */
module ShortenRoute {
  import opened Common
  import opened LinkRouter

  datatype ShortenRequest = ShortenRequest(originalUrl: Option<string>, slug: Option<string>)

  datatype Headers = Headers(forwardedFor: Option<string>, userAgent: Option<string>)

  datatype Body =
    | ErrorBody(message: string)
    | DuplicateBody(message: string, slug: string, shortUrl: string)
    | ShortenedBody(slug: string, shortUrl: string)

  datatype Response = Response(status: int, body: Body)

  datatype Outcome = Outcome(links: Links, response: Response)

  const DefaultBaseUrl := "http://localhost:3000"
  const DefaultUserAgent := "Unknown"
  const GeneratedSlugLength := 7

  /** `NEXT_PUBLIC_APP_URL ?? "http://localhost:3000"`. */
  function BaseUrl(appUrl: Option<string>): (r: string)
    ensures appUrl.Some? ==> r == appUrl.value
    ensures appUrl.None? ==> r == DefaultBaseUrl
  {
    appUrl.GetOr(DefaultBaseUrl)
  }

  /** The public short URL of a slug. */
  function ShortUrl(base: string, slug: string): (r: string)
    ensures |r| == |base| + 1 + |slug|
    ensures r[..|base|] == base && r[|base|] == '/' && r[|base| + 1..] == slug
  {
    base + "/" + slug
  }

  /** `POST /api/shorten`. `body` is `None` when the request body is not JSON
      (the parse throws and the catch answers 500); `userId` is the session's
      user id; `generatedSlug` is the random 7-character slug; `newId` is the id
      the database assigns. */
  method Post(
    links: Links, userId: Option<UserId>, body: Option<ShortenRequest>, headers: Headers,
    isUrl: string -> bool, generatedSlug: string, newId: LinkId, now: int, appUrl: Option<string>)
    returns (out: Outcome)
    requires |generatedSlug| == GeneratedSlugLength
    ensures out.response.status in {200, 400, 409, 500}
    ensures out.response.status != 200 ==> out.links == links
    ensures body.None? ==> out.response == Response(500, ErrorBody("Failed to shorten URL"))
    ensures body.Some? && (body.value.originalUrl.None? || !isUrl(body.value.originalUrl.value)) ==>
      out.response == Response(400, ErrorBody("Invalid URL provided"))
    ensures body.Some? && body.value.originalUrl.Some? && isUrl(body.value.originalUrl.value) ==>
      var url := body.value.originalUrl.value;
      (UrlStored(links, url) <==> out.response.body.DuplicateBody?)
    ensures out.response.body.DuplicateBody? ==>
      && out.response.status == 409
      && body.Some? && body.value.originalUrl.Some?
      && (exists k :: k in links && links[k].originalUrl == body.value.originalUrl.value
                                  && links[k].slug == out.response.body.slug)
      && out.response.body.shortUrl == ShortUrl(BaseUrl(appUrl), out.response.body.slug)
    ensures out.response.body.DuplicateBody? && UrlsUnique(links) ==>
      forall k :: k in links && links[k].originalUrl == body.value.originalUrl.value ==>
        links[k].slug == out.response.body.slug
    ensures body.Some? && body.value.originalUrl.Some? && isUrl(body.value.originalUrl.value)
            && !UrlStored(links, body.value.originalUrl.value)
            && Truthy(body.value.slug) && SlugTaken(links, body.value.slug.value) ==>
      out.response == Response(409, ErrorBody("Custom slug already in use"))
    ensures body.Some? && body.value.originalUrl.Some? && isUrl(body.value.originalUrl.value)
            && !UrlStored(links, body.value.originalUrl.value)
            && !(Truthy(body.value.slug) && SlugTaken(links, body.value.slug.value)) ==>
      var slug := body.value.slug.GetOr(generatedSlug);
      && (out.response.status == 200 <==> !SlugTaken(links, slug) && newId !in links)
      && (out.response.status == 500 <==> SlugTaken(links, slug) || newId in links)
    ensures out.response.status == 200 ==>
      && body.Some? && body.value.originalUrl.Some?
      && var request := body.value;
      && var slug := request.slug.GetOr(generatedSlug);
      && newId !in links
      && !SlugTaken(links, slug)
      && out.links == links[newId := Link(
           slug, request.originalUrl.value,
           if Truthy(userId) then userId else None,
           headers.forwardedFor.GetOr(FallbackIp),
           Some(headers.userAgent.GetOr(DefaultUserAgent)),
           now, [])]
      && out.response.body == ShortenedBody(slug, ShortUrl(BaseUrl(appUrl), slug))
    ensures out.response.status == 200 && body.value.slug.None? ==> |out.response.body.slug| == GeneratedSlugLength
    ensures SlugsUnique(links) ==> SlugsUnique(out.links)
    ensures UrlsUnique(links) ==> UrlsUnique(out.links)
  {
    if body.None? {
      return Outcome(links, Response(500, ErrorBody("Failed to shorten URL")));
    }
    var request := body.value;
    if request.originalUrl.None? || !isUrl(request.originalUrl.value) {
      return Outcome(links, Response(400, ErrorBody("Invalid URL provided")));
    }
    var url := request.originalUrl.value;
    var base := BaseUrl(appUrl);
    if UrlStored(links, url) {
      var k :| k in links && links[k].originalUrl == url;
      var existing := links[k].slug;
      return Outcome(links, Response(409, DuplicateBody("URL already shortened", existing, ShortUrl(base, existing))));
    }
    var slug := request.slug.GetOr(generatedSlug);
    if Truthy(request.slug) && SlugTaken(links, slug) {
      return Outcome(links, Response(409, ErrorBody("Custom slug already in use")));
    }
    var ip := headers.forwardedFor.GetOr(FallbackIp);
    var userAgent := headers.userAgent.GetOr(DefaultUserAgent);
    if SlugTaken(links, slug) || newId in links {
      // The unique index refuses the row; the catch-all answers 500.
      return Outcome(links, Response(500, ErrorBody("Failed to shorten URL")));
    }
    var link := Link(slug, url, if Truthy(userId) then userId else None, ip, Some(userAgent), now, []);
    return Outcome(links[newId := link], Response(200, ShortenedBody(slug, ShortUrl(base, slug))));
  }

  /** An empty custom slug skips the conflict check and is used verbatim, so a
      second request with it reaches the unique index and fails with 500
      rather than with the 409 a taken non-empty slug gets. */
  method EmptySlugCollides(isUrl: string -> bool)
    returns (first: Outcome, second: Outcome)
    requires isUrl("https://a.example") && isUrl("https://b.example")
    ensures first.response == Response(200, ShortenedBody("", "http://localhost:3000/"))
    ensures second.response.status == 500
  {
    var headers := Headers(None, None);
    first := Post(map[], None, Some(ShortenRequest(Some("https://a.example"), Some(""))), headers,
                  isUrl, "abcdefg", "id1", 0, None);
    assert !UrlStored(map[], "https://a.example");
    assert !SlugTaken(map[], "");
    assert first.links["id1"].slug == "";
    assert first.links["id1"].originalUrl == "https://a.example";
    assert first.links.Keys == {"id1"};
    assert !UrlStored(first.links, "https://b.example");
    second := Post(first.links, None, Some(ShortenRequest(Some("https://b.example"), Some(""))), headers,
                   isUrl, "hijklmn", "id2", 1, None);
  }
}
