/**
 The HTTP handlers: the public redirect endpoint and the authenticated CRUD
 endpoints of the API. Each handler maps the caller's user name, the request
 and the store to a response and the store afterwards. The decision between
 404 and 500 looks for "not found" in the error's text, so a refused
 operation, whose message lacks that phrase, answers 500.
 */
module Handlers {
  import opened Wrappers
  import opened Text
  import opened Errors
  import Store
  import opened V1alpha1
  import ShortlinkClient
  import UserShortlinkClient
  import Middleware

  /** The request body after reading and JSON decoding. */
  datatype BodyInput = ReadFailed(error: Error) | ParseFailed(error: Error) | Parsed(spec: ShortlinkSpec)

  /** The values handed to an HTML template. */
  datatype PageData = NoData | RedirectPage(redirectFrom: string, redirectTo: string, redirectAfter: int)

  datatype Body =
    | NoBody
    | ErrorJson(error: string, advice: Option<string>, cause: Option<string>)
    | ShortlinkJson(shortlink: ShortlinkView)
    | ListJson(shortlinks: seq<ShortlinkView>)
    | Html(template: string, data: PageData)
    | RedirectTo(location: string)

  datatype Response = Response(status: int, headers: map<string, string>, body: Body)

  /** A response and the store after the request. */
  datatype Reply = Reply(response: Response, shortlinks: seq<Shortlink>)

  /** The server's surroundings: the namespace file, the store faults, and which scoped client it runs. */
  datatype Server = Server(env: ShortlinkClient.Env, faults: ShortlinkClient.Faults, variant: UserShortlinkClient.Variant)

  const CacheControl: string := "public, max-age=900, stale-if-error=3600"
  const NoUserMessage: string := "No user found for request"
  const ReadBodyContext: string := "Failed to read request-body"
  const UnmarshalSpecContext: string := "Failed to unmarshal ShortLink Spec JSON"

  /** 404 when the error's text says "not found", else 500. */
  function StatusFor(e: Error): (status: int)
    ensures status == 404 || status == 500
    ensures status == 404 <==> Contains(e.message, NotFoundPhrase)
  {
    if Contains(e.message, NotFoundPhrase) then 404 else 500
  }

  function ErrorResponse(status: int, e: Error): Response {
    Response(status, map[], ErrorJson(e.message, None, None))
  }

  /** The answer to a request without a user name. */
  const Unauthorized: Response :=
    Response(401, map[], ErrorJson(NoUserMessage, Some(Middleware.AuthAdvice), None))

  /** The redirect handler's target: "http://" is put in front unless the target already starts with "http". */
  function RedirectTarget(target: string): (url: string)
    ensures HasPrefix(url, "http")
    ensures HasPrefix(target, "http") ==> url == target
    ensures !HasPrefix(target, "http") ==> url == "http://" + target
  {
    if HasPrefix(target, "http") then target else "http://" + target
  }

  /** Prefixing happens at most once, and a target such as "httpbin.org" is left as it is. */
  lemma RedirectTargetIdempotent(target: string)
    ensures RedirectTarget(RedirectTarget(target)) == RedirectTarget(target)
    ensures RedirectTarget("httpbin.org") == "httpbin.org"
  {
    assert "httpbin.org"[..4] == "http";
  }

  /**
   `HandleShortLink`, the public redirect endpoint. `path` is the request
   path. The count is incremented after the response is chosen, and a failed
   increment does not change the response.
   */
  function HandleShortLink(srv: Server, s: seq<Shortlink>, name: string, path: string): (r: Reply)
    ensures r.response.headers == map["Cache-Control" := CacheControl]
    ensures ShortlinkClient.Get(srv.env, s, srv.faults, name).Failure? ==>
      var e := ShortlinkClient.Get(srv.env, s, srv.faults, name).error;
      r.shortlinks == s && r.response.status == StatusFor(e) &&
      r.response.body == Html(if StatusFor(e) == 404 then "404.html" else "500.html", NoData)
    ensures ShortlinkClient.Get(srv.env, s, srv.faults, name).Success? ==>
      var sl := ShortlinkClient.Get(srv.env, s, srv.faults, name).value;
      (sl.spec.code != 200 ==> r.response.status == sl.spec.code && r.response.body == RedirectTo(RedirectTarget(sl.spec.target))) &&
      (sl.spec.code == 200 ==>
        r.response.status == 200 &&
        r.response.body == Html("redirect.html", RedirectPage(path, RedirectTarget(sl.spec.target), sl.spec.redirectAfter)))
  {
    var headers := map["Cache-Control" := CacheControl];
    match ShortlinkClient.Get(srv.env, s, srv.faults, name)
    case Failure(e) =>
      var status := StatusFor(e);
      Reply(Response(status, headers, Html(if status == 404 then "404.html" else "500.html", NoData)), s)
    case Success(sl) =>
      var target := RedirectTarget(sl.spec.target);
      var response :=
        if sl.spec.code != 200 then Response(sl.spec.code, headers, RedirectTo(target))
        else Response(200, headers, Html("redirect.html", RedirectPage(path, target, sl.spec.redirectAfter)));
      var counted := ShortlinkClient.IncrementInvocationCount(s, srv.faults, sl);
      Reply(response, counted.shortlinks)
  }

  /** The response does not depend on whether the count could be written. */
  lemma RedirectIgnoresIncrementFault(srv: Server, fault: Option<Error>, s: seq<Shortlink>, name: string, path: string)
    ensures HandleShortLink(srv.(faults := srv.faults.(updateStatus := fault)), s, name, path).response ==
      HandleShortLink(srv, s, name, path).response
  {
  }

  /** A successful redirect stores a count exactly one higher and leaves the rest of the Shortlink alone. */
  lemma RedirectCountsOnce(srv: Server, s: seq<Shortlink>, name: string, path: string)
    requires ShortlinkClient.Get(srv.env, s, srv.faults, name).Success?
    requires srv.faults.updateStatus.None?
    ensures var sl := ShortlinkClient.Get(srv.env, s, srv.faults, name).value;
      ShortlinkClient.GetNamespaced(HandleShortLink(srv, s, name, path).shortlinks, ShortlinkClient.NoFaults, ShortlinkClient.ShortlinkKey(sl)) ==
        Success(sl.(status := sl.status.(count := sl.status.count + 1)))
  {
    var sl := ShortlinkClient.Get(srv.env, s, srv.faults, name).value;
    var k := ShortlinkClient.ShortlinkKey(sl);
    assert ShortlinkClient.GetNamespaced(s, ShortlinkClient.NoFaults, k) == Success(sl);
    ShortlinkClient.IncrementReadBack(s, srv.faults, sl);
  }

  /** A name that is not stored answers 404 and counts nothing. */
  lemma RedirectMissingIs404(srv: Server, s: seq<Shortlink>, name: string, path: string)
    requires srv.env.namespaceFile.Success? && srv.faults.get.None?
    requires forall x | x in s :: ShortlinkClient.ShortlinkKey(x) != Store.Key(srv.env.namespaceFile.value, name)
    ensures HandleShortLink(srv, s, name, path).response.status == 404
    ensures HandleShortLink(srv, s, name, path).shortlinks == s
  {
  }

  /** `HandleGetShortLink`. No path changes the store, so only the response is returned. */
  function HandleGetShortLink(srv: Server, s: seq<Shortlink>, username: string, name: string): (r: Response)
    ensures username == "" ==> r == Unauthorized
    ensures username != "" ==> match UserShortlinkClient.Get(srv.variant, srv.env, s, srv.faults, username, name)
      case Failure(e) => r == ErrorResponse(StatusFor(e), e)
      case Success(sl) => r == Response(200, map[], ShortlinkJson(View(sl)))
  {
    if |username| == 0 then Unauthorized
    else match UserShortlinkClient.Get(srv.variant, srv.env, s, srv.faults, username, name)
      case Failure(e) => ErrorResponse(StatusFor(e), e)
      case Success(sl) => Response(200, map[], ShortlinkJson(View(sl)))
  }

  /**
   A stored Shortlink the caller does not own answers 500, not 404 or 403:
   the refusal's message does not say "not found" unless the names in it do.
   */
  lemma GetByNonOwnerIs500(srv: Server, s: seq<Shortlink>, username: string, name: string)
    requires username != "" && srv.env.namespaceFile.Success? && srv.faults.get.None?
    requires ShortlinkClient.GetNamespaced(s, srv.faults, Store.Key(srv.env.namespaceFile.value, name)).Success?
    requires !ShortlinkClient.GetNamespaced(s, srv.faults, Store.Key(srv.env.namespaceFile.value, name)).value.IsOwnedBy(username)
    requires !Contains(username, NotFoundPhrase) && !Contains(name, NotFoundPhrase)
    ensures HandleGetShortLink(srv, s, username, name).status == 500
  {
    var sl := ShortlinkClient.GetNamespaced(s, srv.faults, Store.Key(srv.env.namespaceFile.value, name)).value;
    var op := UserShortlinkClient.DenialOperation(srv.variant, ReadOp);
    assert !Contains(op, NotFoundPhrase) by {
      assert op == OperationName(ReadOp) || op == OperationName(DeleteOp);
    }
  }

  /** A name that is not stored answers 404: the wrapped store error still says "not found". */
  lemma GetMissingIs404(srv: Server, s: seq<Shortlink>, username: string, name: string)
    requires username != "" && srv.env.namespaceFile.Success? && srv.faults.get.None?
    requires forall x | x in s :: ShortlinkClient.ShortlinkKey(x) != Store.Key(srv.env.namespaceFile.value, name)
    ensures HandleGetShortLink(srv, s, username, name).status == 404
  {
    var k := Store.Key(srv.env.namespaceFile.value, name);
    var e := Store.NotFoundError(ShortlinkClient.ShortlinkResource, k);
    assert ShortlinkClient.Get(srv.env, s, srv.faults, name) == Failure(e);
    assert UserShortlinkClient.Get(srv.variant, srv.env, s, srv.faults, username, name).Failure?;
  }

  /** The API projection of each Shortlink, in order. */
  function Views(items: seq<Shortlink>): (views: seq<ShortlinkView>)
    ensures |views| == |items|
    ensures forall i | 0 <= i < |items| :: views[i] == ShortlinkView(items[i].name, items[i].spec, items[i].status)
  {
    if |items| == 0 then [] else [View(items[0])] + Views(items[1..])
  }

  /** `HandleListShortLink`. No path changes the store, so only the response is returned. */
  function HandleListShortLink(srv: Server, s: seq<Shortlink>, username: string): (r: Response)
    ensures username == "" ==> r == Unauthorized
    ensures username != "" ==> match UserShortlinkClient.List(srv.variant, srv.env, s, srv.faults, username)
      case Failure(e) => r == ErrorResponse(StatusFor(e), e)
      case Success(items) => r == Response(200, map[], ListJson(Views(items)))
  {
    if |username| == 0 then Unauthorized
    else match UserShortlinkClient.List(srv.variant, srv.env, s, srv.faults, username)
      case Failure(e) => ErrorResponse(StatusFor(e), e)
      case Success(items) => Response(200, map[], ListJson(Views(items)))
  }

  /** Every listed Shortlink belongs to the caller, and every Shortlink of the namespace the caller owns is listed. */
  lemma ListShowsExactlyOwned(srv: Server, s: seq<Shortlink>, username: string)
    requires HandleListShortLink(srv, s, username).status == 200
    ensures var views := HandleListShortLink(srv, s, username).body.shortlinks;
      var ns := srv.env.namespaceFile.value;
      srv.env.namespaceFile.Success? &&
      (forall x | x in s && x.namespace == ns && x.IsOwnedBy(username) :: View(x) in views) &&
      (forall i | 0 <= i < |views| :: exists x | x in s :: x.namespace == ns && x.IsOwnedBy(username) && View(x) == views[i])
  {
    var items := UserShortlinkClient.List(srv.variant, srv.env, s, srv.faults, username).value;
    var views := Views(items);
    forall x | x in s && x.namespace == srv.env.namespaceFile.value && x.IsOwnedBy(username) ensures View(x) in views {
      var i :| 0 <= i < |items| && items[i] == x;
      assert views[i] == View(x);
    }
    forall i | 0 <= i < |views| ensures exists x | x in s :: x.namespace == srv.env.namespaceFile.value && x.IsOwnedBy(username) && View(x) == views[i] {
      assert items[i] in items;
    }
  }

  /** A caller who owns a Shortlink of the namespace gets a 200 listing that shows it, from either client. */
  lemma ListOfSomethingOwned(srv: Server, s: seq<Shortlink>, username: string, x: Shortlink)
    requires username != ""
    requires srv.env.namespaceFile.Success? && srv.faults.list.None?
    requires x in s && x.namespace == srv.env.namespaceFile.value && x.IsOwnedBy(username)
    ensures HandleListShortLink(srv, s, username).status == 200
    ensures View(x) in HandleListShortLink(srv, s, username).body.shortlinks
  {
    var items := ShortlinkClient.List(srv.env, s, srv.faults).value;
    assert x in items;
    assert x in UserShortlinkClient.Owned(items, username);
    ListShowsExactlyOwned(srv, s, username);
  }

  /**
   A caller who owns nothing is refused with 500 by the current client and
   gets an empty list from the older one.
   */
  lemma ListOfNothingOwned(srv: Server, s: seq<Shortlink>, username: string)
    requires username != "" && !Contains(username, NotFoundPhrase)
    requires srv.env.namespaceFile.Success? && srv.faults.list.None?
    requires forall x | x in s && x.namespace == srv.env.namespaceFile.value :: !x.IsOwnedBy(username)
    ensures srv.variant == UserShortlinkClient.Current ==> HandleListShortLink(srv, s, username).status == 500
    ensures srv.variant == UserShortlinkClient.Legacy ==> HandleListShortLink(srv, s, username) == Response(200, map[], ListJson([]))
  {
    var items := ShortlinkClient.List(srv.env, s, srv.faults).value;
    assert forall x | x in items :: !x.IsOwnedBy(username);
    assert UserShortlinkClient.Owned(items, username) == [];
    UserShortlinkClient.EmptyListRefusalMentionsNotFound(username);
  }

  /** `HandleCreateShortLink`. */
  function HandleCreateShortLink(srv: Server, s: seq<Shortlink>, username: string, name: string, body: BodyInput): (r: Reply)
    ensures username == "" ==> r == Reply(Unauthorized, s)
    ensures username != "" && !body.Parsed? ==> r == Reply(ErrorResponse(500, body.error), s)
    ensures r.response.status != 200 ==> r.shortlinks == s
    ensures r.response.status == 200 ==> (
      username != "" && body.Parsed? && |r.shortlinks| == |s| + 1 && r.shortlinks[..|s|] == s &&
      var created := r.shortlinks[|s|];
      created.name == name && created.spec == body.spec.(owner := username) && created.status == NewStatus &&
      r.response.body == ShortlinkJson(View(created)))
    ensures r.response.status in {200, 401, 500}
    // any create error answers 500, whatever its cause
    ensures username != "" && body.Parsed? ==>
      var w := UserShortlinkClient.Create(srv.env, s, srv.faults, username, Shortlink(name, "", body.spec, NewStatus));
      (w.error.Some? ==> r == Reply(ErrorResponse(500, w.error.value), s)) && (w.error.None? ==> r.response.status == 200)
  {
    if |username| == 0 then Reply(Unauthorized, s)
    else match body
      case ReadFailed(e) => Reply(ErrorResponse(500, e), s)
      case ParseFailed(e) => Reply(ErrorResponse(500, e), s)
      case Parsed(spec) =>
        var w := UserShortlinkClient.Create(srv.env, s, srv.faults, username, Shortlink(name, "", spec, NewStatus));
        if w.error.Some? then Reply(ErrorResponse(500, w.error.value), s)
        else
          assert (s + [w.shortlink])[..|s|] == s;
          Reply(Response(200, map[], ShortlinkJson(View(w.shortlink))), w.shortlinks)
  }

  /** A created Shortlink reads back owned by its creator. */
  lemma CreatedIsOwnedByCaller(srv: Server, s: seq<Shortlink>, username: string, name: string, body: BodyInput)
    requires HandleCreateShortLink(srv, s, username, name, body).response.status == 200
    ensures var after := HandleCreateShortLink(srv, s, username, name, body).shortlinks;
      var created := after[|s|];
      ShortlinkClient.GetNamespaced(after, ShortlinkClient.NoFaults, ShortlinkClient.ShortlinkKey(created)) == Success(created) &&
      created.IsOwnedBy(username)
  {
    var sl := Shortlink(name, "", body.spec, NewStatus);
    ShortlinkClient.GetAfterCreate(srv.env, s, srv.faults, sl.(spec := sl.spec.(owner := username)));
  }

  /**
   `HandleUpdateShortLink`. The stored spec is replaced wholesale by the body,
   owner and co-owners included, and ownership is judged twice: by the read on
   the stored spec and by the write on the new one.
   */
  function HandleUpdateShortLink(srv: Server, s: seq<Shortlink>, username: string, name: string, body: BodyInput): (r: Reply)
    ensures username == "" ==> r == Reply(Unauthorized, s)
    ensures username != "" && body.ReadFailed? ==> (r.shortlinks == s && r.response.status == 500 &&
      r.response.body == ErrorJson(Wrap(body.error, ReadBodyContext).message, None, Some(body.error.message)))
    ensures username != "" && body.ParseFailed? ==> (r.shortlinks == s && r.response.status == 500 &&
      r.response.body == ErrorJson(Wrap(body.error, UnmarshalSpecContext).message, None, Some(body.error.message)))
    ensures username != "" && body.Parsed? && UserShortlinkClient.Get(srv.variant, srv.env, s, srv.faults, username, name).Failure? ==>
      var e := UserShortlinkClient.Get(srv.variant, srv.env, s, srv.faults, username, name).error;
      r == Reply(ErrorResponse(StatusFor(e), e), s)
    ensures r.response.status in {200, 401, 404, 500}
    ensures r.response.status == 200 ==> body.Parsed? && match r.response.body
      case ShortlinkJson(v) => v.name == name && v.spec == body.spec && v.status.changedBy == username
      case _ => false
    // any update error answers 500; a failed status write leaves the spec written
    ensures username != "" && body.Parsed? && UserShortlinkClient.Get(srv.variant, srv.env, s, srv.faults, username, name).Success? ==>
      var w := UserShortlinkClient.Update(srv.variant, s, srv.faults, username,
        UserShortlinkClient.Get(srv.variant, srv.env, s, srv.faults, username, name).value.(spec := body.spec));
      r.shortlinks == w.shortlinks &&
      (w.error.Some? ==> r.response == ErrorResponse(500, w.error.value)) && (w.error.None? ==> r.response.status == 200)
  {
    if |username| == 0 then Reply(Unauthorized, s)
    else match body
      case ReadFailed(e) => Reply(Response(500, map[], ErrorJson(Wrap(e, ReadBodyContext).message, None, Some(e.message))), s)
      case ParseFailed(e) => Reply(Response(500, map[], ErrorJson(Wrap(e, UnmarshalSpecContext).message, None, Some(e.message))), s)
      case Parsed(spec) =>
        match UserShortlinkClient.Get(srv.variant, srv.env, s, srv.faults, username, name)
        case Failure(e) => Reply(ErrorResponse(StatusFor(e), e), s)
        case Success(sl) =>
          var w := UserShortlinkClient.Update(srv.variant, s, srv.faults, username, sl.(spec := spec));
          if w.error.Some? then Reply(ErrorResponse(500, w.error.value), w.shortlinks)
          else Reply(Response(200, map[], ShortlinkJson(View(w.shortlink))), w.shortlinks)
  }

  /**
   A successful update needs the caller to own both the stored Shortlink and
   the new spec, and stores the new spec with the caller as `changedBy`.
   */
  lemma UpdateNeedsOwnershipBeforeAndAfter(srv: Server, s: seq<Shortlink>, username: string, name: string, body: BodyInput)
    requires HandleUpdateShortLink(srv, s, username, name, body).response.status == 200
    ensures var before := UserShortlinkClient.Get(srv.variant, srv.env, s, srv.faults, username, name);
      body.Parsed? && before.Success? && before.value.IsOwnedBy(username) &&
      before.value.(spec := body.spec).IsOwnedBy(username) &&
      ShortlinkClient.GetNamespaced(HandleUpdateShortLink(srv, s, username, name, body).shortlinks, ShortlinkClient.NoFaults,
        ShortlinkClient.ShortlinkKey(before.value)) ==
        Success(before.value.(spec := body.spec, status := before.value.status.(changedBy := username)))
  {
    var sl := UserShortlinkClient.Get(srv.variant, srv.env, s, srv.faults, username, name).value;
    var edited := sl.(spec := body.spec);
    UserShortlinkClient.GetAfterUpdate(srv.variant, s, srv.faults, username, edited);
    assert ShortlinkClient.GetNamespaced(s, ShortlinkClient.NoFaults, ShortlinkClient.ShortlinkKey(edited)) == Success(sl);
  }

  /** An update that hands the Shortlink to someone else is refused with 500, and nothing is written. */
  lemma UpdateGivingAwayIsRefused(srv: Server, s: seq<Shortlink>, username: string, name: string, spec: ShortlinkSpec)
    requires username != ""
    requires UserShortlinkClient.Get(srv.variant, srv.env, s, srv.faults, username, name).Success?
    requires spec.owner != username && username !in spec.coOwners
    ensures HandleUpdateShortLink(srv, s, username, name, Parsed(spec)) ==
      Reply(ErrorResponse(500, UserShortlinkClient.Denied(srv.variant, username, UpdateOp,
        UserShortlinkClient.Get(srv.variant, srv.env, s, srv.faults, username, name).value.name)), s)
  {
  }

  /** `HandleDeleteShortLink`: success has no body and the default status 200. */
  function HandleDeleteShortLink(srv: Server, s: seq<Shortlink>, username: string, name: string): (r: Reply)
    ensures username == "" ==> r == Reply(Unauthorized, s)
    ensures username != "" && UserShortlinkClient.Get(srv.variant, srv.env, s, srv.faults, username, name).Failure? ==>
      var e := UserShortlinkClient.Get(srv.variant, srv.env, s, srv.faults, username, name).error;
      r == Reply(ErrorResponse(StatusFor(e), e), s)
    ensures r.response.status != 200 ==> r.shortlinks == s
    ensures r.response.status == 200 ==> r.response.body == NoBody && |r.shortlinks| == |s| - 1
    ensures r.response.status in {200, 401, 404, 500}
    // a failed delete answers 404 or 500 by its text and deletes nothing
    ensures username != "" && UserShortlinkClient.Get(srv.variant, srv.env, s, srv.faults, username, name).Success? ==>
      var d := UserShortlinkClient.Delete(srv.variant, s, srv.faults, username,
        UserShortlinkClient.Get(srv.variant, srv.env, s, srv.faults, username, name).value);
      (d.Failure? ==> r == Reply(ErrorResponse(StatusFor(d.error), d.error), s)) &&
      (d.Success? ==> r.response.status == 200 && r.shortlinks == d.value)
  {
    if |username| == 0 then Reply(Unauthorized, s)
    else match UserShortlinkClient.Get(srv.variant, srv.env, s, srv.faults, username, name)
      case Failure(e) => Reply(ErrorResponse(StatusFor(e), e), s)
      case Success(sl) =>
        match UserShortlinkClient.Delete(srv.variant, s, srv.faults, username, sl)
        case Failure(e) => Reply(ErrorResponse(StatusFor(e), e), s)
        case Success(after) => Reply(Response(200, map[], NoBody), after)
  }

  /** In a store with unique keys, a successful delete removes exactly the caller's Shortlink. */
  lemma DeleteRemovesOnlyIt(srv: Server, s: seq<Shortlink>, username: string, name: string, k: Store.Key)
    requires Store.UniqueKeys(s, ShortlinkClient.ShortlinkKey)
    requires HandleDeleteShortLink(srv, s, username, name).response.status == 200
    ensures srv.env.namespaceFile.Success?
    ensures var gone := Store.Key(srv.env.namespaceFile.value, name);
      var after := HandleDeleteShortLink(srv, s, username, name).shortlinks;
      ShortlinkClient.GetNamespaced(after, ShortlinkClient.NoFaults, k) ==
        if k == gone then Failure(Store.NotFoundError(ShortlinkClient.ShortlinkResource, k))
        else ShortlinkClient.GetNamespaced(s, ShortlinkClient.NoFaults, k)
  {
    var sl := UserShortlinkClient.Get(srv.variant, srv.env, s, srv.faults, username, name).value;
    ShortlinkClient.GetAfterDelete(s, srv.faults, sl, k);
  }

  /** A request whose identity lookup failed reaches the handlers without a user and is answered 401. */
  lemma FailedLookupIsUnauthorized(srv: Server, s: seq<Shortlink>, header: string, lookup: string -> Result<Middleware.GithubUser, string>, name: string)
    requires Middleware.GitHubUserAuth(header, lookup).Next?
    requires lookup(Middleware.ExtractBearerToken(header).value).Failure?
    ensures HandleGetShortLink(srv, s, Middleware.HandlerUserName(Middleware.GitHubUserAuth(header, lookup)), name).status == 401
  {
  }
}
