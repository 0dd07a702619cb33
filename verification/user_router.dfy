/**
  The tRPC user router: choosing a username, reading the profile, resetting the
  daily counter, and recovering an old account by merging its links into the
  caller's. This router belongs to the schema iteration whose links carry
  `shortCode`, `longUrl` and a click counter, so it has its own records. The
  store holds users by id and links as a sequence. `findMany` without
  `orderBy` promises no order; the model fixes one, the sequence order.
  Prisma's `update` of a missing row throws, which tRPC turns into
  INTERNAL_SERVER_ERROR.
 */
module UserRouter {
  import opened Common

  type UserId = string

  datatype User = User(
    username: Option<string>,
    totalLinksCreated: int,
    dailyShortenCount: int,
    lastShortenDate: Option<int>)

  datatype ShortLink = ShortLink(
    longUrl: string,
    shortCode: string,
    clicks: int,
    userId: Option<UserId>,
    expiresAt: Option<int>,
    createdAt: int)

  datatype Db = Db(users: map<UserId, User>, links: seq<ShortLink>)

  /** The protected-procedure guard on `ctx.userId`. */
  predicate Authenticated(caller: Option<UserId>) {
    Truthy(caller)
  }

  /** A row created by the upsert: the username, counters at their defaults. */
  function NewUser(username: string): User {
    User(Some(username), 0, 0, None)
  }

  predicate UsernameHeldByOther(users: map<UserId, User>, name: string, caller: UserId) {
    exists id :: id in users && users[id].username == Some(name) && id != caller
  }

  /** The unique index on `username`. */
  ghost predicate UsernamesUnique(users: map<UserId, User>) {
    forall a, b :: a in users && b in users && users[a].username.Some? && users[a].username == users[b].username ==> a == b
  }

  datatype Saved = Saved(db: Db, user: User)

  /** `user.updateUsername`: CONFLICT only when another user holds the name;
      otherwise update the caller's row or create it. */
  function UpdateUsername(db: Db, caller: Option<UserId>, username: string): (r: Result<Saved, TrpcCode>)
    ensures !Authenticated(caller) ==> r == Err(Unauthorized)
    ensures Authenticated(caller) && username == "" ==> r == Err(BadRequest)
    ensures Authenticated(caller) && username != "" ==>
      (r == Err(Conflict) <==> UsernameHeldByOther(db.users, username, caller.value))
    ensures r.Ok? <==> Authenticated(caller) && username != "" && !UsernameHeldByOther(db.users, username, caller.value)
    ensures r.Err? ==> r.error in {Unauthorized, BadRequest, Conflict}
    ensures r.Ok? ==>
      var c := caller.value;
      && username != ""
      && r.value.db.links == db.links
      && r.value.db.users.Keys == db.users.Keys + {c}
      && r.value.db.users[c] == r.value.user
      && r.value.user.username == Some(username)
      && (c in db.users ==> r.value.user == db.users[c].(username := Some(username)))
      && (c !in db.users ==> r.value.user == NewUser(username))
      && (forall id :: id in db.users && id != c ==> r.value.db.users[id] == db.users[id])
    ensures r.Ok? && UsernamesUnique(db.users) ==> UsernamesUnique(r.value.db.users)
  {
    if !Authenticated(caller) then Err(Unauthorized)
    else if username == "" then Err(BadRequest)
    else if UsernameHeldByOther(db.users, username, caller.value) then Err(Conflict)
    else
      var c := caller.value;
      var user := if c in db.users then db.users[c].(username := Some(username)) else NewUser(username);
      Ok(Saved(Db(db.users[c := user], db.links), user))
  }

  /** The same user saving the name they already hold is not a conflict. */
  lemma ResavingOwnUsernameSucceeds(db: Db, caller: UserId)
    requires UsernamesUnique(db.users)
    requires caller != "" && caller in db.users
    requires db.users[caller].username.Some? && db.users[caller].username.value != ""
    ensures UpdateUsername(db, Some(caller), db.users[caller].username.value).Ok?
  {
    assert !UsernameHeldByOther(db.users, db.users[caller].username.value, caller);
  }

  datatype Profile = Profile(
    id: UserId,
    username: Option<string>,
    totalLinksCreated: int,
    dailyShortenCount: int,
    lastShortenDate: Option<int>)

  /** `user.getProfile`: the caller's row, NOT_FOUND when there is none. */
  function GetProfile(db: Db, caller: Option<UserId>): (r: Result<Profile, TrpcCode>)
    ensures !Authenticated(caller) ==> r == Err(Unauthorized)
    ensures Authenticated(caller) ==> (r == Err(NotFound) <==> caller.value !in db.users)
    ensures r.Ok? <==> Authenticated(caller) && caller.value in db.users
    ensures r.Ok? ==>
      var u := db.users[caller.value];
      && caller.value in db.users
      && r.value == Profile(caller.value, u.username, u.totalLinksCreated, u.dailyShortenCount, u.lastShortenDate)
  {
    if !Authenticated(caller) then Err(Unauthorized)
    else if caller.value !in db.users then Err(NotFound)
    else
      var u := db.users[caller.value];
      Ok(Profile(caller.value, u.username, u.totalLinksCreated, u.dailyShortenCount, u.lastShortenDate))
  }

  /** `user.resetDailyCount`: zero the daily counter and stamp it with `now`;
      nothing else changes. Updating a missing row throws. */
  function ResetDailyCount(db: Db, caller: Option<UserId>, now: int): (r: Result<Saved, TrpcCode>)
    ensures !Authenticated(caller) ==> r == Err(Unauthorized)
    ensures Authenticated(caller) ==> (r == Err(InternalServerError) <==> caller.value !in db.users)
    ensures r.Ok? <==> Authenticated(caller) && caller.value in db.users
    ensures r.Ok? ==>
      var c := caller.value;
      && c in db.users
      && r.value.user.dailyShortenCount == 0
      && r.value.user.lastShortenDate == Some(now)
      && r.value.user.username == db.users[c].username
      && r.value.user.totalLinksCreated == db.users[c].totalLinksCreated
      && r.value.db == Db(db.users[c := r.value.user], db.links)
  {
    if !Authenticated(caller) then Err(Unauthorized)
    else if caller.value !in db.users then Err(InternalServerError)
    else
      var c := caller.value;
      var user := db.users[c].(dailyShortenCount := 0, lastShortenDate := Some(now));
      Ok(Saved(Db(db.users[c := user], db.links), user))
  }

  // ---------------------------------------------------------------------------
  // Account recovery

  /** The links of `owner` (`findMany where userId`), in the order the model
      fixes for an unordered query: sequence order. */
  function LinksOf(links: seq<ShortLink>, owner: UserId): (r: seq<ShortLink>)
    ensures |r| <= |links|
    ensures forall x :: x in r <==> x in links && x.userId == Some(owner)
    ensures forall x :: multiset(r)[x] == if x.userId == Some(owner) then multiset(links)[x] else 0
    decreases |links|
  {
    if |links| == 0 then []
    else
      var rest := LinksOf(links[1..], owner);
      assert links == [links[0]] + links[1..];
      assert forall x :: x in links <==> x == links[0] || x in links[1..];
      if links[0].userId == Some(owner) then [links[0]] + rest else rest
  }

  /** The filter keeps the stored order: the owner's links of a concatenation
      are those of the first part followed by those of the second. */
  lemma {:induction false} LinksOfAppend(a: seq<ShortLink>, b: seq<ShortLink>, owner: UserId)
    ensures LinksOf(a + b, owner) == LinksOf(a, owner) + LinksOf(b, owner)
    decreases |a|
  {
    if |a| > 0 {
      assert (a + b)[1..] == a[1..] + b;
      LinksOfAppend(a[1..], b, owner);
    } else {
      assert a + b == b;
    }
  }

  /** `findFirst where { userId: owner, shortCode: code }` finds a row. */
  predicate HasCode(links: seq<ShortLink>, owner: UserId, code: string) {
    exists i :: 0 <= i < |links| && links[i].userId == Some(owner) && links[i].shortCode == code
  }

  /** The copy made for the caller: every field of the old link but the owner. */
  function CopyFor(link: ShortLink, owner: UserId): (r: ShortLink)
    ensures r.userId == Some(owner)
    ensures r.longUrl == link.longUrl && r.shortCode == link.shortCode && r.clicks == link.clicks
    ensures r.expiresAt == link.expiresAt && r.createdAt == link.createdAt
  {
    link.(userId := Some(owner))
  }

  lemma HasCodeGrows(a: seq<ShortLink>, b: seq<ShortLink>, owner: UserId, code: string)
    requires |a| <= |b| && b[..|a|] == a
    requires HasCode(a, owner, code)
    ensures HasCode(b, owner, code)
  {
    var i :| 0 <= i < |a| && a[i].userId == Some(owner) && a[i].shortCode == code;
    assert b[i] == a[i];
  }

  /** `x` is the caller's copy of one of the pending links. */
  predicate CopiedFrom(x: ShortLink, pending: seq<ShortLink>, owner: UserId) {
    exists j :: 0 <= j < |pending| && x == CopyFor(pending[j], owner)
  }

  /** The merge loop of `recoverAccount`, as a reference definition: each
      pending link is copied to `owner` unless `owner` already has a link with
      its short code, counting copies made earlier in the same loop. Returns the
      new link list and the number of copies. */
  function Merge(links: seq<ShortLink>, pending: seq<ShortLink>, owner: UserId): (r: (seq<ShortLink>, nat))
    ensures |r.0| == |links| + r.1
    ensures r.1 <= |pending|
    ensures r.0[..|links|] == links
    ensures forall i :: |links| <= i < |r.0| ==>
      CopiedFrom(r.0[i], pending, owner)
    ensures forall i :: |links| <= i < |r.0| ==> !HasCode(links, owner, r.0[i].shortCode)
    ensures forall i, k :: |links| <= i < k < |r.0| ==> r.0[i].shortCode != r.0[k].shortCode
    ensures forall j :: 0 <= j < |pending| ==> HasCode(r.0, owner, pending[j].shortCode)
    decreases |pending|
  {
    if |pending| == 0 then (links, 0)
    else
      var head := pending[0];
      if HasCode(links, owner, head.shortCode) then
        var r := Merge(links, pending[1..], owner);
        MergeSkipFacts(links, pending, owner, r);
        r
      else
        var grown := links + [CopyFor(head, owner)];
        var r := Merge(grown, pending[1..], owner);
        MergeCopyFacts(links, pending, owner, r);
        (r.0, r.1 + 1)
  }

  lemma MergeSkipFacts(links: seq<ShortLink>, pending: seq<ShortLink>, owner: UserId, r: (seq<ShortLink>, nat))
    requires |pending| > 0 && HasCode(links, owner, pending[0].shortCode)
    requires |r.0| == |links| + r.1 && r.0[..|links|] == links
    requires forall i :: |links| <= i < |r.0| ==>
      CopiedFrom(r.0[i], pending[1..], owner)
    requires forall j :: 0 <= j < |pending[1..]| ==> HasCode(r.0, owner, pending[1..][j].shortCode)
    ensures forall i :: |links| <= i < |r.0| ==>
      CopiedFrom(r.0[i], pending, owner)
    ensures forall j :: 0 <= j < |pending| ==> HasCode(r.0, owner, pending[j].shortCode)
  {
    forall i | |links| <= i < |r.0|
      ensures CopiedFrom(r.0[i], pending, owner)
    {
      assert CopiedFrom(r.0[i], pending[1..], owner);
      var j :| 0 <= j < |pending[1..]| && r.0[i] == CopyFor(pending[1..][j], owner);
      assert r.0[i] == CopyFor(pending[j + 1], owner);
    }
    forall j | 0 <= j < |pending|
      ensures HasCode(r.0, owner, pending[j].shortCode)
    {
      if j == 0 {
        HasCodeGrows(links, r.0, owner, pending[0].shortCode);
      } else {
        assert pending[j] == pending[1..][j - 1];
      }
    }
  }

  lemma MergeCopyFacts(links: seq<ShortLink>, pending: seq<ShortLink>, owner: UserId, r: (seq<ShortLink>, nat))
    requires |pending| > 0 && !HasCode(links, owner, pending[0].shortCode)
    requires
      var grown := links + [CopyFor(pending[0], owner)];
      && |r.0| == |grown| + r.1
      && r.0[..|grown|] == grown
      && (forall i :: |grown| <= i < |r.0| ==>
            CopiedFrom(r.0[i], pending[1..], owner))
      && (forall i :: |grown| <= i < |r.0| ==> !HasCode(grown, owner, r.0[i].shortCode))
      && (forall i, k :: |grown| <= i < k < |r.0| ==> r.0[i].shortCode != r.0[k].shortCode)
      && (forall j :: 0 <= j < |pending[1..]| ==> HasCode(r.0, owner, pending[1..][j].shortCode))
    ensures r.0[..|links|] == links
    ensures forall i :: |links| <= i < |r.0| ==>
      CopiedFrom(r.0[i], pending, owner)
    ensures forall i :: |links| <= i < |r.0| ==> !HasCode(links, owner, r.0[i].shortCode)
    ensures forall i, k :: |links| <= i < k < |r.0| ==> r.0[i].shortCode != r.0[k].shortCode
    ensures forall j :: 0 <= j < |pending| ==> HasCode(r.0, owner, pending[j].shortCode)
  {
    var copy := CopyFor(pending[0], owner);
    var grown := links + [copy];
    var n := |links|;
    assert r.0[..n] == grown[..n] == links;
    assert r.0[n] == copy;
    assert HasCode(grown, owner, copy.shortCode) by {
      assert grown[n] == copy;
    }
    forall i | n <= i < |r.0|
      ensures CopiedFrom(r.0[i], pending, owner)
    {
      if i == n {
        assert r.0[i] == CopyFor(pending[0], owner);
      } else {
        assert CopiedFrom(r.0[i], pending[1..], owner);
        var j :| 0 <= j < |pending[1..]| && r.0[i] == CopyFor(pending[1..][j], owner);
        assert r.0[i] == CopyFor(pending[j + 1], owner);
      }
    }
    forall i | n <= i < |r.0|
      ensures !HasCode(links, owner, r.0[i].shortCode)
    {
      if i > n && HasCode(links, owner, r.0[i].shortCode) {
        HasCodeGrows(links, grown, owner, r.0[i].shortCode);
      }
    }
    forall i, k | n <= i < k < |r.0|
      ensures r.0[i].shortCode != r.0[k].shortCode
    {
      if i == n {
        assert !HasCode(grown, owner, r.0[k].shortCode);
      }
    }
    forall j | 0 <= j < |pending|
      ensures HasCode(r.0, owner, pending[j].shortCode)
    {
      if j == 0 {
        HasCodeGrows(grown, r.0, owner, copy.shortCode);
      } else {
        assert pending[j] == pending[1..][j - 1];
      }
    }
  }

  /** The username rule of `recoverAccount`: the old account's name is adopted
      when it is non-empty and the caller's `userData.username` is null or a
      different value. `callerName` is `Undefined` when the request context
      carries no `userData`. */
  predicate Adopts(oldName: Option<string>, callerName: Nullable) {
    Truthy(oldName) && (callerName == Null || callerName != Str(oldName.value))
  }

  /** The null test is subsumed: the old name is adopted exactly when it is
      non-empty and differs from the caller's. */
  lemma AdoptsIffDiffers(oldName: Option<string>, callerName: Nullable)
    ensures Adopts(oldName, callerName) <==> Truthy(oldName) && callerName != Str(oldName.value)
  {
  }

  datatype Recovered = Recovered(db: Db, error: Option<TrpcCode>)

  /** The `for … of oldLinks` loop: one `findFirst` and at most one `create`
      per old link, computing exactly what `Merge` describes. */
  method MergeOldLinks(start: seq<ShortLink>, oldLinks: seq<ShortLink>, c: UserId)
    returns (links: seq<ShortLink>, mergedCount: nat)
    ensures (links, mergedCount) == Merge(start, oldLinks, c)
  {
    links := start;
    mergedCount := 0;
    var i := 0;
    while i < |oldLinks|
      invariant 0 <= i <= |oldLinks|
      invariant Merge(start, oldLinks, c).0 == Merge(links, oldLinks[i..], c).0
      invariant Merge(start, oldLinks, c).1 == mergedCount + Merge(links, oldLinks[i..], c).1
      decreases |oldLinks| - i
    {
      var oldLink := oldLinks[i];
      assert oldLinks[i..][0] == oldLink && oldLinks[i..][1..] == oldLinks[i + 1..];
      if !HasCode(links, c, oldLink.shortCode) {
        links := links + [CopyFor(oldLink, c)];
        mergedCount := mergedCount + 1;
      }
      i := i + 1;
    }
    assert oldLinks[i..] == [];
  }

  /** The steps of `recoverAccount` after the merge loop: adopt the username,
      add the copies to the caller's total, delete the old user. */
  function FinishRecovery(
    users: map<UserId, User>, links: seq<ShortLink>, c: UserId, oldToken: UserId,
    callerName: Nullable, mergedCount: nat): (out: Recovered)
    requires oldToken in users && oldToken != c
    ensures out.db.links == links
    ensures var adopt := Adopts(users[oldToken].username, callerName);
      && (out.error.Some? <==> c !in users && (adopt || mergedCount > 0))
      && (out.error.Some? ==> out.error == Some(InternalServerError) && out.db.users == users)
      && (out.error.None? ==>
            && out.db.users.Keys == users.Keys - {oldToken}
            && (forall id :: id in out.db.users && id != c ==> out.db.users[id] == users[id])
            && (c in users ==>
                  && out.db.users[c].username == (if adopt then users[oldToken].username else users[c].username)
                  && out.db.users[c].totalLinksCreated == users[c].totalLinksCreated + mergedCount
                  && out.db.users[c].dailyShortenCount == users[c].dailyShortenCount
                  && out.db.users[c].lastShortenDate == users[c].lastShortenDate))
  {
    var oldName := users[oldToken].username;
    var adopt := Adopts(oldName, callerName);
    if c !in users && (adopt || mergedCount > 0) then
      Recovered(Db(users, links), Some(InternalServerError))
    else
      var named := if adopt then users[c := users[c].(username := oldName)] else users;
      var counted := if mergedCount > 0 then named[c := named[c].(totalLinksCreated := named[c].totalLinksCreated + mergedCount)] else named;
      Recovered(Db(counted - {oldToken}, links), None)
  }

  /** `user.recoverAccount`: merge the links of the account `oldToken` into the
      caller's, adopt its username, add the number of copies to the caller's
      total, and delete the old user row. Rows written before a step throws stay
      written. */
  method RecoverAccount(db: Db, caller: Option<UserId>, oldToken: UserId, isUuid: string -> bool, callerName: Nullable)
    returns (out: Recovered)
    ensures !Authenticated(caller) ==> out == Recovered(db, Some(Unauthorized))
    ensures Authenticated(caller) && !isUuid(oldToken) ==> out == Recovered(db, Some(BadRequest))
    ensures Authenticated(caller) && isUuid(oldToken) && oldToken !in db.users ==> out == Recovered(db, Some(NotFound))
    ensures Authenticated(caller) && isUuid(oldToken) && oldToken in db.users && oldToken == caller.value ==>
      out == Recovered(db, Some(BadRequest))
    ensures Authenticated(caller) && isUuid(oldToken) && oldToken in db.users && oldToken != caller.value ==>
      var c := caller.value;
      var merged := Merge(db.links, LinksOf(db.links, oldToken), c);
      var adopt := Adopts(db.users[oldToken].username, callerName);
      && out.db.links == merged.0
      && (out.error.Some? <==> c !in db.users && (adopt || merged.1 > 0))
      && (out.error.Some? ==> out.error == Some(InternalServerError) && out.db.users == db.users)
      && (out.error.None? ==>
            && out.db.users.Keys == db.users.Keys - {oldToken}
            && (forall id :: id in out.db.users && id != c ==> out.db.users[id] == db.users[id])
            && (c in db.users ==>
                  && out.db.users[c].username == (if adopt then db.users[oldToken].username else db.users[c].username)
                  && out.db.users[c].totalLinksCreated == db.users[c].totalLinksCreated + merged.1
                  && out.db.users[c].dailyShortenCount == db.users[c].dailyShortenCount
                  && out.db.users[c].lastShortenDate == db.users[c].lastShortenDate))
  {
    if !Authenticated(caller) {
      return Recovered(db, Some(Unauthorized));
    }
    if !isUuid(oldToken) {
      return Recovered(db, Some(BadRequest));
    }
    if oldToken !in db.users {
      return Recovered(db, Some(NotFound));
    }
    var c := caller.value;
    if oldToken == c {
      return Recovered(db, Some(BadRequest));
    }
    var links, mergedCount := MergeOldLinks(db.links, LinksOf(db.links, oldToken), c);
    out := FinishRecovery(db.users, links, c, oldToken, callerName, mergedCount);
  }
}
