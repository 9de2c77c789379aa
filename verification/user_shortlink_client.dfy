/**
 The ownership-scoped Shortlink client: the typed client seen through one
 user. Listing keeps what the user owns, reads and writes of a Shortlink the
 user does not own are refused, and a created Shortlink is owned by its
 creator. Two versions exist and `Variant` chooses between them: the current
 one refuses a listing with nothing in it and names the refused operation; the
 older one returns the empty listing and calls every refusal "delete".
 */
module UserShortlinkClient {
  import opened Wrappers
  import opened Text
  import opened Errors
  import Store
  import opened V1alpha1
  import ShortlinkClient

  datatype Variant = Current | Legacy

  const AllShortlinks: string := "all shortlinks"
  const GetContext: string := "Unable to get shortlink"

  /** The operation a refusal names. */
  function DenialOperation(v: Variant, op: CrudOperation): (name: string)
    ensures v == Legacy ==> name == "delete"
    ensures v == Current ==> name == OperationName(op)
  {
    if v == Legacy then "delete" else OperationName(op)
  }

  function Denied(v: Variant, username: string, op: CrudOperation, name: string): (e: Error)
    ensures e.reason == NotAllowed
  {
    NewNotAllowedError(username, DenialOperation(v, op), name)
  }

  function OwnedBy(username: string): Shortlink -> bool {
    (sl: Shortlink) => sl.IsOwnedBy(username)
  }

  /** The Shortlinks of `items` the user owns, in their order. */
  function Owned(items: seq<Shortlink>, username: string): (r: seq<Shortlink>)
    ensures forall x | x in r :: x in items && x.IsOwnedBy(username)
    ensures forall x | x in items && x.IsOwnedBy(username) :: x in r
  {
    Store.Filter(items, OwnedBy(username))
  }

  /** Ownership filtering keeps order: it distributes over concatenation. */
  lemma OwnedKeepsOrder(a: seq<Shortlink>, b: seq<Shortlink>, username: string)
    ensures Owned(a + b, username) == Owned(a, username) + Owned(b, username)
  {
    Store.FilterConcat(a, b, OwnedBy(username));
  }

  /** The refusal of an empty listing says "not found" only when the user name does. */
  lemma EmptyListRefusalMentionsNotFound(username: string)
    ensures Contains(NewNotAllowedError(username, OperationName(ReadOp), AllShortlinks).message, NotFoundPhrase) <==>
      Contains(username, NotFoundPhrase)
  {
    assert OperationName(ReadOp) == "read";
    AbsentCharExcludes("read", NotFoundPhrase, 'n');
    AbsentCharExcludes(AllShortlinks, NotFoundPhrase, 'f');
  }

  /** `List`: the user's Shortlinks of the namespace; the store's error is passed on unchanged. */
  function List(v: Variant, env: ShortlinkClient.Env, s: seq<Shortlink>, f: ShortlinkClient.Faults, username: string): (r: Result<seq<Shortlink>, Error>)
    ensures ShortlinkClient.List(env, s, f).Failure? ==> r == Failure(ShortlinkClient.List(env, s, f).error)
    ensures r.Success? ==> ShortlinkClient.List(env, s, f).Success? && r.value == Owned(ShortlinkClient.List(env, s, f).value, username)
    // the current client refuses an empty listing; the older one returns it
    ensures v == Current && ShortlinkClient.List(env, s, f).Success? && Owned(ShortlinkClient.List(env, s, f).value, username) == [] ==>
      r == Failure(NewNotAllowedError(username, OperationName(ReadOp), AllShortlinks))
    ensures v == Current && r.Success? ==> |r.value| > 0
    ensures v == Legacy ==> (r.Success? <==> ShortlinkClient.List(env, s, f).Success?)
    // a successful listing comes back as the owned part, unless the current client refuses it for being empty
    ensures ShortlinkClient.List(env, s, f).Success? && (v == Legacy || Owned(ShortlinkClient.List(env, s, f).value, username) != []) ==>
      r == Success(Owned(ShortlinkClient.List(env, s, f).value, username))
  {
    match ShortlinkClient.List(env, s, f)
    case Failure(e) => Failure(e)
    case Success(items) =>
      var mine := Owned(items, username);
      if v == Current && |mine| == 0 then Failure(NewNotAllowedError(username, OperationName(ReadOp), AllShortlinks))
      else Success(mine)
  }

  /** The context `Get` wraps store errors in keeps an error's "not found" verdict as it was. */
  lemma GetContextKeepsNotFound(e: Error)
    ensures Contains(Wrap(e, GetContext).message, NotFoundPhrase) <==> Contains(e.message, NotFoundPhrase)
  {
    AbsentCharExcludes(GetContext, NotFoundPhrase, 'f');
    WrapPreservesNotFound(e, GetContext);
  }

  /** `Get`: a store error comes back wrapped; a Shortlink the user does not own is refused. */
  function Get(v: Variant, env: ShortlinkClient.Env, s: seq<Shortlink>, f: ShortlinkClient.Faults, username: string, name: string): (r: Result<Shortlink, Error>)
    ensures var got := ShortlinkClient.Get(env, s, f, name);
      (r.Success? <==> got.Success? && got.value.IsOwnedBy(username)) &&
      (r.Success? ==> r.value == got.value) &&
      (got.Failure? ==> r == Failure(Wrap(got.error, GetContext))) &&
      (got.Success? && !got.value.IsOwnedBy(username) ==> r == Failure(Denied(v, username, ReadOp, got.value.name)))
    // the wrapping neither adds nor hides "not found"
    ensures var got := ShortlinkClient.Get(env, s, f, name);
      got.Failure? ==> (Contains(r.error.message, NotFoundPhrase) <==> Contains(got.error.message, NotFoundPhrase))
  {
    match ShortlinkClient.Get(env, s, f, name)
    case Failure(e) =>
      GetContextKeepsNotFound(e);
      Failure(Wrap(e, GetContext))
    case Success(sl) =>
      if !sl.IsOwnedBy(username) then Failure(Denied(v, username, ReadOp, sl.name)) else Success(sl)
  }

  /** `Create`: the caller becomes the owner whatever the object said; there is no ownership check. */
  function Create(env: ShortlinkClient.Env, s: seq<Shortlink>, f: ShortlinkClient.Faults, username: string, sl: Shortlink): (w: ShortlinkClient.Written)
    ensures w.shortlink.spec == sl.spec.(owner := username)
    ensures w.shortlink.IsOwnedBy(username)
    ensures w.error.None? ==> w.shortlinks == s + [w.shortlink]
    ensures w.error.Some? ==> w.shortlinks == s
  {
    ShortlinkClient.Create(env, s, f, sl.(spec := sl.spec.(owner := username)))
  }

  /**
   `Update`: ownership is judged on the object passed in; the spec is written,
   then the status with the caller as `changedBy`. A failed spec write stops
   before the status write; a failed status write leaves the spec written.
   */
  function Update(v: Variant, s: seq<Shortlink>, f: ShortlinkClient.Faults, username: string, sl: Shortlink): (w: ShortlinkClient.Written)
    ensures !sl.IsOwnedBy(username) ==> w == ShortlinkClient.Written(sl, s, Some(Denied(v, username, UpdateOp, sl.name)))
    ensures sl.IsOwnedBy(username) && ShortlinkClient.Update(s, f, sl).error.Some? ==> w == ShortlinkClient.Update(s, f, sl)
    ensures w.error.None? ==> sl.IsOwnedBy(username) && w.shortlink.spec == sl.spec && w.shortlink.status.changedBy == username
    ensures w.error.None? ==> ShortlinkClient.ShortlinkKey(w.shortlink) == ShortlinkClient.ShortlinkKey(sl)
  {
    if !sl.IsOwnedBy(username) then ShortlinkClient.Written(sl, s, Some(Denied(v, username, UpdateOp, sl.name)))
    else
      var specWritten := ShortlinkClient.Update(s, f, sl);
      if specWritten.error.Some? then specWritten
      else
        var changed := specWritten.shortlink.(status := specWritten.shortlink.status.(changedBy := username));
        ShortlinkClient.UpdateStatus(specWritten.shortlinks, f, changed)
  }

  /** After a successful update the store holds the caller's spec and the stored status with the caller as `changedBy`. */
  lemma GetAfterUpdate(v: Variant, s: seq<Shortlink>, f: ShortlinkClient.Faults, username: string, sl: Shortlink)
    requires Update(v, s, f, username, sl).error.None?
    ensures var stored := ShortlinkClient.GetNamespaced(s, ShortlinkClient.NoFaults, ShortlinkClient.ShortlinkKey(sl)).value;
      ShortlinkClient.GetNamespaced(Update(v, s, f, username, sl).shortlinks, ShortlinkClient.NoFaults, ShortlinkClient.ShortlinkKey(sl)) ==
        Success(sl.(status := stored.status.(changedBy := username)))
  {
    var k := ShortlinkClient.ShortlinkKey(sl);
    var w1 := ShortlinkClient.Update(s, f, sl);
    ShortlinkClient.GetAfterUpdate(s, f, sl, k);
    var changed := w1.shortlink.(status := w1.shortlink.status.(changedBy := username));
    ShortlinkClient.GetAfterUpdateStatus(w1.shortlinks, f, changed, k);
  }

  /** A failed status write after a successful spec write leaves the new spec stored, with the old status. */
  lemma UpdatePartialProgress(v: Variant, s: seq<Shortlink>, f: ShortlinkClient.Faults, username: string, sl: Shortlink)
    requires sl.IsOwnedBy(username)
    requires ShortlinkClient.Update(s, f, sl).error.None?
    requires f.updateStatus.Some?
    ensures var stored := ShortlinkClient.GetNamespaced(s, ShortlinkClient.NoFaults, ShortlinkClient.ShortlinkKey(sl)).value;
      var w := Update(v, s, f, username, sl);
      w.error == f.updateStatus &&
      ShortlinkClient.GetNamespaced(w.shortlinks, ShortlinkClient.NoFaults, ShortlinkClient.ShortlinkKey(sl)) == Success(sl.(status := stored.status))
  {
    ShortlinkClient.GetAfterUpdate(s, f, sl, ShortlinkClient.ShortlinkKey(sl));
  }

  /** `Delete`: ownership is judged on the object passed in; an owner's delete is the store's delete. */
  function Delete(v: Variant, s: seq<Shortlink>, f: ShortlinkClient.Faults, username: string, sl: Shortlink): (r: Result<seq<Shortlink>, Error>)
    ensures !sl.IsOwnedBy(username) ==> r == Failure(Denied(v, username, DeleteOp, sl.name))
    ensures sl.IsOwnedBy(username) ==> r == ShortlinkClient.Delete(s, f, sl)
  {
    if !sl.IsOwnedBy(username) then Failure(Denied(v, username, DeleteOp, sl.name)) else ShortlinkClient.Delete(s, f, sl)
  }

  /** Every refusal of the older client names "delete", whichever operation was refused. */
  lemma LegacyRefusalsSayDelete(username: string, op: CrudOperation, name: string)
    ensures Denied(Legacy, username, op, name) == Denied(Legacy, username, DeleteOp, name)
  {
  }
}
