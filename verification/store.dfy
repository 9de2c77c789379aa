/**
 The resource store (the Kubernetes API server as the controllers and clients
 see it), reduced to what the model needs. Objects of one kind are kept in a
 sequence in creation order and addressed by namespace and name; a lookup finds
 the first object with a key, so listing keeps the store's order. Every store
 call either behaves as the store would or fails with the error that an outside
 oracle injects for that call (`Inject`), which makes every error branch of the
 callers reachable.
 */
module Store {
  import opened Wrappers
  import opened Text
  import opened Errors

  /** `types.NamespacedName`. */
  datatype Key = Key(namespace: string, name: string)

  /** The offset of the first object stored under `k`. */
  function Find<T>(s: seq<T>, key: T -> Key, k: Key): (r: Option<nat>)
    ensures r.Some? ==> r.value < |s| && key(s[r.value]) == k
    ensures r.Some? ==> forall j | 0 <= j < r.value :: key(s[j]) != k
    ensures r.None? ==> forall j | 0 <= j < |s| :: key(s[j]) != k
  {
    if |s| == 0 then None
    else if key(s[0]) == k then Some(0)
    else match Find(s[1..], key, k)
      case None => None
      case Some(j) => Some(j + 1)
  }

  /** What the API server guarantees: no two objects share a namespace and name. */
  ghost predicate UniqueKeys<T>(s: seq<T>, key: T -> Key) {
    forall i, j | 0 <= i < j < |s| :: key(s[i]) != key(s[j])
  }

  /** The API server's NotFound status: `<resource> "<name>" not found`. */
  function NotFoundError(resource: string, k: Key): (e: Error)
    ensures e.reason == NotFound && Contains(e.message, NotFoundPhrase)
  {
    ContainsSuffix(resource + " \"" + k.name + "\" ", NotFoundPhrase);
    Error(NotFound, resource + " \"" + k.name + "\" " + NotFoundPhrase, "")
  }

  /** The API server's AlreadyExists status: `<resource> "<name>" already exists`. */
  function AlreadyExistsError(resource: string, k: Key): Error {
    Error(AlreadyExists, resource + " \"" + k.name + "\" already exists", "")
  }

  /** The outcome of one store call: the injected fault if there is one, else what the store did. */
  function Inject<T>(fault: Option<Error>, r: Result<T, Error>): Result<T, Error> {
    if fault.Some? then Failure(fault.value) else r
  }

  /** `client.Get`. */
  function Get<T(==)>(s: seq<T>, key: T -> Key, k: Key, resource: string): (r: Result<T, Error>)
    ensures r.Success? ==> r.value in s && key(r.value) == k
    ensures r.Failure? <==> forall x | x in s :: key(x) != k
    ensures r.Failure? ==> r.error == NotFoundError(resource, k)
    // the object returned is the first one stored under `k`
    ensures r.Success? ==> exists i | 0 <= i < |s| && key(s[i]) == k ::
      (forall j | 0 <= j < i :: key(s[j]) != k) && r.value == s[i]
  {
    match Find(s, key, k)
    case None => Failure(NotFoundError(resource, k))
    case Some(i) => Success(s[i])
  }

  /** `client.Create`: refused when the key is taken, otherwise appended. */
  function Create<T(==)>(s: seq<T>, key: T -> Key, o: T, resource: string): (r: Result<seq<T>, Error>)
    ensures r.Success? <==> forall x | x in s :: key(x) != key(o)
    ensures r.Success? ==> r.value == s + [o]
    ensures r.Failure? ==> r.error == AlreadyExistsError(resource, key(o))
  {
    match Find(s, key, key(o))
    case None => Success(s + [o])
    case Some(_) => Failure(AlreadyExistsError(resource, key(o)))
  }

  /** `client.Update` (full overwrite): replaces the object stored under the same key. */
  function Put<T(==)>(s: seq<T>, key: T -> Key, o: T, resource: string): (r: Result<seq<T>, Error>)
    ensures r.Success? <==> exists x | x in s :: key(x) == key(o)
    ensures r.Success? ==> o in r.value && |r.value| == |s|
    ensures r.Success? ==> forall j | 0 <= j < |s| :: key(r.value[j]) == key(s[j])
    ensures r.Success? ==> forall x | x in r.value :: x == o || x in s
    ensures r.Failure? ==> r.error == NotFoundError(resource, key(o))
  {
    match Find(s, key, key(o))
    case None => Failure(NotFoundError(resource, key(o)))
    case Some(i) =>
      assert s[i := o][i] == o;
      Success(s[i := o])
  }

  /** `client.Delete`. */
  function Delete<T(==)>(s: seq<T>, key: T -> Key, k: Key, resource: string): (r: Result<seq<T>, Error>)
    ensures r.Success? <==> exists x | x in s :: key(x) == k
    ensures r.Success? ==> |r.value| == |s| - 1 && forall x | x in r.value :: x in s
    // the object removed is the first one stored under `k`, and the others keep their order
    ensures r.Success? ==> exists i | 0 <= i < |s| && key(s[i]) == k ::
      (forall j | 0 <= j < i :: key(s[j]) != k) && r.value == s[..i] + s[i + 1..]
    ensures r.Failure? ==> r.error == NotFoundError(resource, k)
  {
    match Find(s, key, k)
    case None => Failure(NotFoundError(resource, k))
    case Some(i) => Success(s[..i] + s[i + 1..])
  }

  /** The objects of `s` that satisfy `p`, in store order: a label or namespace selection. */
  function Filter<T(==)>(s: seq<T>, p: T -> bool): (r: seq<T>)
    ensures |r| <= |s|
    ensures forall x | x in r :: x in s && p(x)
    ensures forall x | x in s && p(x) :: x in r
    ensures r == [] <==> forall x | x in s :: !p(x)
  {
    if |s| == 0 then [] else (if p(s[0]) then [s[0]] else []) + Filter(s[1..], p)
  }

  /** Selection keeps store order: it distributes over concatenation. */
  lemma {:induction false} FilterConcat<T>(a: seq<T>, b: seq<T>, p: T -> bool)
    ensures Filter(a + b, p) == Filter(a, p) + Filter(b, p)
    decreases |a|
  {
    if |a| > 0 {
      var head := if p(a[0]) then [a[0]] else [];
      assert (a + b)[0] == a[0] && (a + b)[1..] == a[1..] + b;
      assert Filter(a + b, p) == head + Filter(a[1..] + b, p);
      FilterConcat(a[1..], b, p);
      assert Filter(a, p) == head + Filter(a[1..], p);
    } else {
      assert a + b == b;
    }
  }

  /** Lookups depend on the keys only. */
  lemma {:induction false} FindSameKeys<T>(s: seq<T>, t: seq<T>, key: T -> Key, k: Key)
    requires |s| == |t|
    requires forall j | 0 <= j < |s| :: key(s[j]) == key(t[j])
    ensures Find(s, key, k) == Find(t, key, k)
    decreases |s|
  {
    if |s| > 0 && key(s[0]) != k {
      FindSameKeys(s[1..], t[1..], key, k);
    }
  }

  /** Read-after-write for `Put`: the key written reads back the new object, every other key is untouched. */
  lemma GetAfterPut<T>(s: seq<T>, key: T -> Key, o: T, resource: string, k: Key)
    requires Put(s, key, o, resource).Success?
    ensures Get(Put(s, key, o, resource).value, key, k, resource) ==
      if k == key(o) then Success(o) else Get(s, key, k, resource)
  {
    var i := Find(s, key, key(o)).value;
    var t := s[i := o];
    FindSameKeys(s, t, key, k);
  }

  /** Writing back the object already stored changes nothing. */
  lemma PutStoredIsNoOp<T>(s: seq<T>, key: T -> Key, o: T, resource: string)
    requires Get(s, key, key(o), resource) == Success(o)
    ensures Put(s, key, o, resource) == Success(s)
  {
    var i := Find(s, key, key(o)).value;
    assert s[i := o] == s;
  }

  /** Read-after-write for `Create`: the new key reads back the new object, every other key is untouched. */
  lemma GetAfterCreate<T>(s: seq<T>, key: T -> Key, o: T, resource: string, k: Key)
    requires Create(s, key, o, resource).Success?
    ensures Get(Create(s, key, o, resource).value, key, k, resource) ==
      if k == key(o) then Success(o) else Get(s, key, k, resource)
  {
    var t := s + [o];
    assert t[|s|] == o;
    if k != key(o) {
      FindAppendOther(s, key, o, k);
    }
  }

  lemma {:induction false} FindAppendOther<T>(s: seq<T>, key: T -> Key, o: T, k: Key)
    requires key(o) != k
    ensures Find(s + [o], key, k) == Find(s, key, k)
    decreases |s|
  {
    if |s| > 0 && key(s[0]) != k {
      assert (s + [o])[1..] == s[1..] + [o];
      FindAppendOther(s[1..], key, o, k);
    }
  }

  /** The first object under `k` sits at `m` when `s[m]` has key `k` and nothing before it does. */
  lemma {:induction false} FindAt<T>(s: seq<T>, key: T -> Key, k: Key, m: nat)
    requires m < |s| && key(s[m]) == k
    requires forall j | 0 <= j < m :: key(s[j]) != k
    ensures Find(s, key, k) == Some(m)
    decreases m
  {
    if m > 0 {
      FindAt(s[1..], key, k, m - 1);
    }
  }

  /** Removing the object at `i` shifts the later ones down by one. */
  lemma RemoveAt<T>(s: seq<T>, i: nat)
    requires i < |s|
    ensures |s[..i] + s[i + 1..]| == |s| - 1
    ensures forall j | 0 <= j < |s| - 1 :: (s[..i] + s[i + 1..])[j] == if j < i then s[j] else s[j + 1]
  {
  }

  /** Read-after-write for `Delete` in a store with unique keys: the key is gone, every other key is untouched. */
  lemma GetAfterDelete<T>(s: seq<T>, key: T -> Key, k: Key, resource: string, k': Key)
    requires UniqueKeys(s, key)
    requires Delete(s, key, k, resource).Success?
    ensures Get(Delete(s, key, k, resource).value, key, k', resource) ==
      if k' == k then Failure(NotFoundError(resource, k)) else Get(s, key, k', resource)
  {
    var i := Find(s, key, k).value;
    var t := s[..i] + s[i + 1..];
    assert Delete(s, key, k, resource).value == t;
    RemoveAt(s, i);
    if k' == k {
      forall j | 0 <= j < |t| ensures key(t[j]) != k {
        if j >= i {
          assert t[j] == s[j + 1];
        }
      }
    } else {
      match Find(s, key, k')
      case None =>
        forall j | 0 <= j < |t| ensures key(t[j]) != k' {
          if j >= i {
            assert t[j] == s[j + 1];
          }
        }
      case Some(m) =>
        if m < i {
          FindAt(t, key, k', m);
        } else {
          forall j | 0 <= j < m - 1 ensures key(t[j]) != k' {
            if j >= i {
              assert t[j] == s[j + 1];
            }
          }
          FindAt(t, key, k', m - 1);
        }
    }
  }

  /** Creation keeps keys unique. */
  lemma CreateKeepsKeysUnique<T>(s: seq<T>, key: T -> Key, o: T, resource: string)
    requires UniqueKeys(s, key)
    requires Create(s, key, o, resource).Success?
    ensures UniqueKeys(Create(s, key, o, resource).value, key)
  {
    var t := s + [o];
    forall i, j | 0 <= i < j < |t| ensures key(t[i]) != key(t[j]) {
      if j == |s| {
        assert t[i] == s[i] && s[i] in s;
      }
    }
  }

  /** Overwriting keeps keys unique. */
  lemma PutKeepsKeysUnique<T>(s: seq<T>, key: T -> Key, o: T, resource: string)
    requires UniqueKeys(s, key)
    requires Put(s, key, o, resource).Success?
    ensures UniqueKeys(Put(s, key, o, resource).value, key)
  {
  }

  /** Deletion keeps keys unique. */
  lemma DeleteKeepsKeysUnique<T>(s: seq<T>, key: T -> Key, k: Key, resource: string)
    requires UniqueKeys(s, key)
    requires Delete(s, key, k, resource).Success?
    ensures UniqueKeys(Delete(s, key, k, resource).value, key)
  {
    var i := Find(s, key, k).value;
    var t := s[..i] + s[i + 1..];
    forall a, b | 0 <= a < b < |t| ensures key(t[a]) != key(t[b]) {
      var a' := if a < i then a else a + 1;
      var b' := if b < i then b else b + 1;
      assert t[a] == s[a'] && t[b] == s[b'];
    }
  }
}
