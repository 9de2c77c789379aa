/**
 The typed Shortlink client: reads and writes Shortlinks in the store, with the
 split between the main resource (whose writes leave the status alone) and the
 status subresource (whose writes change the status only). Calls that need the
 current namespace read it from the pod's service-account file, which `Env`
 supplies as its contents or a read error.
 */
module ShortlinkClient {
  import opened Wrappers
  import opened Errors
  import Store
  import opened V1alpha1

  const ShortlinkResource: string := "shortlinks.urlshortener.cedi.dev"
  const NamespaceReadContext: string := "Unable to read current namespace"

  function ShortlinkKey(sl: Shortlink): Store.Key {
    Store.Key(sl.namespace, sl.name)
  }

  /** What the service-account namespace file yields. */
  datatype Env = Env(namespaceFile: Result<string, Error>)

  /** The injected outcome of each store call; `None` lets the store answer. */
  datatype Faults = Faults(
    get: Option<Error>,
    list: Option<Error>,
    create: Option<Error>,
    update: Option<Error>,
    updateStatus: Option<Error>,
    delete: Option<Error>)

  const NoFaults: Faults := Faults(None, None, None, None, None, None)

  /**
   The outcome of a write: the caller's object as it stands afterwards (the
   store's copy on success, the caller's own on failure), the store, and the
   error if there was one.
   */
  datatype Written = Written(shortlink: Shortlink, shortlinks: seq<Shortlink>, error: Option<Error>)

  /** `GetNamespaced`: the stored object or the store's error, unchanged. */
  function GetNamespaced(s: seq<Shortlink>, f: Faults, k: Store.Key): (r: Result<Shortlink, Error>)
    ensures r.Success? ==> r.value in s && ShortlinkKey(r.value) == k && f.get.None?
    ensures r.Failure? ==> r.error == (if f.get.Some? then f.get.value else Store.NotFoundError(ShortlinkResource, k))
    ensures f.get.None? ==> (r.Failure? <==> forall x | x in s :: ShortlinkKey(x) != k)
  {
    Store.Inject(f.get, Store.Get(s, ShortlinkKey, k, ShortlinkResource))
  }

  /** `Get`: `GetNamespaced` in the pod's own namespace; nothing is asked of the store when the namespace is unknown. */
  function Get(env: Env, s: seq<Shortlink>, f: Faults, name: string): (r: Result<Shortlink, Error>)
    ensures env.namespaceFile.Failure? ==> r == Failure(Wrap(env.namespaceFile.error, NamespaceReadContext))
    ensures env.namespaceFile.Success? ==> r == GetNamespaced(s, f, Store.Key(env.namespaceFile.value, name))
  {
    match env.namespaceFile
    case Failure(e) => Failure(Wrap(e, NamespaceReadContext))
    case Success(ns) => GetNamespaced(s, f, Store.Key(ns, name))
  }

  function InNamespace(ns: string): Shortlink -> bool {
    (sl: Shortlink) => sl.namespace == ns
  }

  /** `ListNamespaced`: every Shortlink of the namespace, in store order. */
  function ListNamespaced(s: seq<Shortlink>, f: Faults, ns: string): (r: Result<seq<Shortlink>, Error>)
    ensures r.Success? <==> f.list.None?
    ensures r.Success? ==> forall x | x in r.value :: x in s && x.namespace == ns
    ensures r.Success? ==> forall x | x in s && x.namespace == ns :: x in r.value
  {
    Store.Inject(f.list, Success(Store.Filter(s, InNamespace(ns))))
  }

  /** `List`: `ListNamespaced` in the pod's own namespace. */
  function List(env: Env, s: seq<Shortlink>, f: Faults): (r: Result<seq<Shortlink>, Error>)
    ensures env.namespaceFile.Failure? ==> r == Failure(Wrap(env.namespaceFile.error, NamespaceReadContext))
    ensures env.namespaceFile.Success? ==> r == ListNamespaced(s, f, env.namespaceFile.value)
  {
    match env.namespaceFile
    case Failure(e) => Failure(Wrap(e, NamespaceReadContext))
    case Success(ns) => ListNamespaced(s, f, ns)
  }

  /** `Update` through the main resource: the spec and metadata are written, the stored status stays. */
  function Update(s: seq<Shortlink>, f: Faults, sl: Shortlink): (w: Written)
    ensures w.error.None? <==> f.update.None? && exists x | x in s :: ShortlinkKey(x) == ShortlinkKey(sl)
    ensures w.error.Some? ==> w.shortlinks == s && w.shortlink == sl
    ensures w.error.None? ==> w.shortlink.spec == sl.spec && ShortlinkKey(w.shortlink) == ShortlinkKey(sl)
    // the object handed back is the store's copy: the caller's spec with the status the store already had
    ensures w.error.None? ==> w.shortlink.status == GetNamespaced(s, NoFaults, ShortlinkKey(sl)).value.status
    ensures w.error.None? ==> GetNamespaced(w.shortlinks, NoFaults, ShortlinkKey(sl)) == Success(w.shortlink)
  {
    var stored := Store.Get(s, ShortlinkKey, ShortlinkKey(sl), ShortlinkResource);
    var written := Store.Inject(f.update, if stored.Success? then Store.Put(s, ShortlinkKey, sl.(status := stored.value.status), ShortlinkResource) else Failure(stored.error));
    if written.Failure? then Written(sl, s, Some(written.error))
    else Written(sl.(status := stored.value.status), written.value, None)
  }

  /** `UpdateStatus` through the status subresource: the status is written, the stored spec stays. */
  function UpdateStatus(s: seq<Shortlink>, f: Faults, sl: Shortlink): (w: Written)
    ensures w.error.None? <==> f.updateStatus.None? && exists x | x in s :: ShortlinkKey(x) == ShortlinkKey(sl)
    ensures w.error.Some? ==> w.shortlinks == s && w.shortlink == sl
    ensures w.error.None? ==> w.shortlink.status == sl.status && ShortlinkKey(w.shortlink) == ShortlinkKey(sl)
    // the object handed back is the store's copy: the caller's status with the spec the store already had
    ensures w.error.None? ==> w.shortlink.spec == GetNamespaced(s, NoFaults, ShortlinkKey(sl)).value.spec
    ensures w.error.None? ==> GetNamespaced(w.shortlinks, NoFaults, ShortlinkKey(sl)) == Success(w.shortlink)
  {
    var stored := Store.Get(s, ShortlinkKey, ShortlinkKey(sl), ShortlinkResource);
    var written := Store.Inject(f.updateStatus, if stored.Success? then Store.Put(s, ShortlinkKey, stored.value.(status := sl.status), ShortlinkResource) else Failure(stored.error));
    if written.Failure? then Written(sl, s, Some(written.error))
    else Written(stored.value.(status := sl.status), written.value, None)
  }

  /** A main-resource write reads back with the caller's spec and the status the store already had. */
  lemma GetAfterUpdate(s: seq<Shortlink>, f: Faults, sl: Shortlink, k: Store.Key)
    requires Update(s, f, sl).error.None?
    ensures var stored := GetNamespaced(s, NoFaults, ShortlinkKey(sl)).value;
      GetNamespaced(Update(s, f, sl).shortlinks, NoFaults, k) ==
        if k == ShortlinkKey(sl) then Success(sl.(status := stored.status)) else GetNamespaced(s, NoFaults, k)
  {
    var stored := Store.Get(s, ShortlinkKey, ShortlinkKey(sl), ShortlinkResource).value;
    Store.GetAfterPut(s, ShortlinkKey, sl.(status := stored.status), ShortlinkResource, k);
  }

  /** A status write reads back with the caller's status and the spec the store already had. */
  lemma GetAfterUpdateStatus(s: seq<Shortlink>, f: Faults, sl: Shortlink, k: Store.Key)
    requires UpdateStatus(s, f, sl).error.None?
    ensures var stored := GetNamespaced(s, NoFaults, ShortlinkKey(sl)).value;
      GetNamespaced(UpdateStatus(s, f, sl).shortlinks, NoFaults, k) ==
        if k == ShortlinkKey(sl) then Success(stored.(status := sl.status)) else GetNamespaced(s, NoFaults, k)
  {
    var stored := Store.Get(s, ShortlinkKey, ShortlinkKey(sl), ShortlinkResource).value;
    Store.GetAfterPut(s, ShortlinkKey, stored.(status := sl.status), ShortlinkResource, k);
  }

  /** `IncrementInvocationCount`: the caller's count goes up by one before the status write, and stays up if the write fails. */
  function IncrementInvocationCount(s: seq<Shortlink>, f: Faults, sl: Shortlink): (w: Written)
    ensures w.shortlink.status.count == sl.status.count + 1
    ensures w.error.Some? ==> w.shortlinks == s && w.shortlink == sl.(status := sl.status.(count := sl.status.count + 1))
  {
    UpdateStatus(s, f, sl.(status := sl.status.(count := sl.status.count + 1)))
  }

  /** Counting a fresh copy of the stored object stores a count one higher and changes nothing else. */
  lemma IncrementReadBack(s: seq<Shortlink>, f: Faults, sl: Shortlink)
    requires GetNamespaced(s, NoFaults, ShortlinkKey(sl)) == Success(sl)
    requires IncrementInvocationCount(s, f, sl).error.None?
    ensures GetNamespaced(IncrementInvocationCount(s, f, sl).shortlinks, NoFaults, ShortlinkKey(sl)) ==
      Success(sl.(status := sl.status.(count := sl.status.count + 1)))
  {
    GetAfterUpdateStatus(s, f, sl.(status := sl.status.(count := sl.status.count + 1)), ShortlinkKey(sl));
  }

  /** `Delete`: removes the object stored under the caller's object's key. */
  function Delete(s: seq<Shortlink>, f: Faults, sl: Shortlink): (r: Result<seq<Shortlink>, Error>)
    ensures r.Success? <==> f.delete.None? && exists x | x in s :: ShortlinkKey(x) == ShortlinkKey(sl)
    ensures r.Success? ==> |r.value| == |s| - 1 && forall x | x in r.value :: x in s
    // the object removed is the first one stored under the caller's key, and the others keep their order
    ensures r.Success? ==> exists i | 0 <= i < |s| && ShortlinkKey(s[i]) == ShortlinkKey(sl) ::
      (forall j | 0 <= j < i :: ShortlinkKey(s[j]) != ShortlinkKey(sl)) && r.value == s[..i] + s[i + 1..]
  {
    Store.Inject(f.delete, Store.Delete(s, ShortlinkKey, ShortlinkKey(sl), ShortlinkResource))
  }

  /** In a store with unique keys, a deleted Shortlink is gone and every other one is untouched. */
  lemma GetAfterDelete(s: seq<Shortlink>, f: Faults, sl: Shortlink, k: Store.Key)
    requires Store.UniqueKeys(s, ShortlinkKey)
    requires Delete(s, f, sl).Success?
    ensures GetNamespaced(Delete(s, f, sl).value, NoFaults, k) ==
      if k == ShortlinkKey(sl) then Failure(Store.NotFoundError(ShortlinkResource, k)) else GetNamespaced(s, NoFaults, k)
  {
    Store.GetAfterDelete(s, ShortlinkKey, ShortlinkKey(sl), ShortlinkResource, k);
  }

  /**
   `Create`: an object without a namespace is put into the pod's namespace
   (and nothing is created when that cannot be read); the store keeps the
   spec and starts the status afresh, since the status subresource ignores it.
   */
  function Create(env: Env, s: seq<Shortlink>, f: Faults, sl: Shortlink): (w: Written)
    ensures sl.namespace == "" && env.namespaceFile.Failure? ==>
      w == Written(sl, s, Some(Wrap(env.namespaceFile.error, NamespaceReadContext)))
    ensures w.shortlink.name == sl.name && w.shortlink.spec == sl.spec
    ensures w.shortlink.namespace == (if sl.namespace == "" && env.namespaceFile.Success? then env.namespaceFile.value else sl.namespace)
    ensures w.error.None? ==> w.shortlink.status == NewStatus && w.shortlinks == s + [w.shortlink]
    ensures w.error.Some? ==> w.shortlinks == s
  {
    if sl.namespace == "" && env.namespaceFile.Failure? then
      Written(sl, s, Some(Wrap(env.namespaceFile.error, NamespaceReadContext)))
    else
      var placed := if sl.namespace == "" then sl.(namespace := env.namespaceFile.value) else sl;
      var created := Store.Inject(f.create, Store.Create(s, ShortlinkKey, placed.(status := NewStatus), ShortlinkResource));
      if created.Failure? then Written(placed, s, Some(created.error))
      else Written(placed.(status := NewStatus), created.value, None)
  }

  /** A namespaced object is created without reading the namespace file. */
  lemma CreateNamespacedIgnoresEnv(env1: Env, env2: Env, s: seq<Shortlink>, f: Faults, sl: Shortlink)
    requires sl.namespace != ""
    ensures Create(env1, s, f, sl) == Create(env2, s, f, sl)
  {
  }

  /** A created Shortlink reads back with its spec and a zero count. */
  lemma GetAfterCreate(env: Env, s: seq<Shortlink>, f: Faults, sl: Shortlink)
    requires Create(env, s, f, sl).error.None?
    ensures var w := Create(env, s, f, sl);
      GetNamespaced(w.shortlinks, NoFaults, ShortlinkKey(w.shortlink)) == Success(w.shortlink) &&
      w.shortlink.spec == sl.spec && w.shortlink.status.count == 0
  {
    var w := Create(env, s, f, sl);
    Store.GetAfterCreate(s, ShortlinkKey, w.shortlink, ShortlinkResource, ShortlinkKey(w.shortlink));
  }

  /** What the schema demands of every stored status: a non-negative count. */
  predicate CountsValid(s: seq<Shortlink>) {
    forall x | x in s :: ValidStatus(x.status)
  }

  /**
   The schema's bound on the count is kept by the writes the service makes:
   creation starts at zero, counting a fresh copy adds one, and a main-resource
   write keeps the stored status.
   */
  lemma WritesKeepCountsValid(env: Env, s: seq<Shortlink>, f: Faults, sl: Shortlink)
    requires CountsValid(s)
    ensures Create(env, s, f, sl).error.None? ==> CountsValid(Create(env, s, f, sl).shortlinks)
    ensures Update(s, f, sl).error.None? ==> CountsValid(Update(s, f, sl).shortlinks)
    ensures GetNamespaced(s, NoFaults, ShortlinkKey(sl)) == Success(sl) && IncrementInvocationCount(s, f, sl).error.None? ==>
      CountsValid(IncrementInvocationCount(s, f, sl).shortlinks)
  {
    if GetNamespaced(s, NoFaults, ShortlinkKey(sl)) == Success(sl) {
      assert sl in s;
    }
  }
}
