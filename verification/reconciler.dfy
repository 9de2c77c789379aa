/**
 The Redirect reconciler: one reconcile step over the cluster's Redirects and
 Ingresses. The step fetches the Redirect, upserts its derived Ingress (get,
 then create-and-update or update), lists the Ingresses that carry the
 Redirect's labels and writes the Redirect's status. Every store call may fail
 with an error that `Faults` supplies, so each branch of the step is reachable.
 The older controller runs the same step after updating its redirect counter.
 */
module RedirectReconciler {
  import opened Wrappers
  import opened Errors
  import Store
  import opened V1alpha1
  import opened Ingresses

  const RedirectResource: string := "redirects.urlshortener.cedi.dev"
  const IngressResource: string := "ingresses.networking.k8s.io"

  const GetIngressContext: string := "Failed to get redirect Ingress"
  const CreateIngressContext: string := "Failed to create new Ingress"
  const UpdateIngressContext: string := "Failed to update redirect Ingress"

  function RedirectKey(r: Redirect): Store.Key {
    Store.Key(r.namespace, r.name)
  }

  function IngressKey(ing: Ingress): Store.Key {
    Store.Key(ing.meta.namespace, ing.meta.name)
  }

  datatype Cluster = Cluster(redirects: seq<Redirect>, ingresses: seq<Ingress>)

  /** The injected outcome of each store call of one step; `None` lets the store answer. */
  datatype Faults = Faults(
    getRedirect: Option<Error>,
    getIngress: Option<Error>,
    createIngress: Option<Error>,
    updateIngress: Option<Error>,
    listIngresses: Option<Error>,
    updateStatus: Option<Error>)

  const NoFaults: Faults := Faults(None, None, None, None, None, None)

  /** The writes a step sends to the store, in order. */
  datatype Write = CreateIngress(ingress: Ingress) | UpdateIngress(ingress: Ingress) | UpdateStatus(redirect: Redirect)

  /**
   How a step ends: `Done` is `(ctrl.Result{}, nil)`, `Requeue` returns the
   error, `Panic` is a nil pointer dereference.
   */
  datatype Outcome = Done | Requeue(error: Error) | Panic

  /** The result of `upsertRedirectIngress`, with the Ingress store after it and the writes it sent. */
  datatype Upsert = Upsert(desired: Ingress, result: Result<Ingress, Error>, ingresses: seq<Ingress>, writes: seq<Write>)

  datatype Step = Step(outcome: Outcome, cluster: Cluster, writes: seq<Write>)

  /** `GetNamespaced` on the Redirect named by the request. */
  function GetRedirect(c: Cluster, f: Faults, req: Store.Key): (r: Result<Redirect, Error>)
    ensures r.Success? ==> RedirectKey(r.value) == req && r.value in c.redirects
  {
    Store.Inject(f.getRedirect, Store.Get(c.redirects, RedirectKey, req, RedirectResource))
  }

  /** The Ingress stored under the Redirect's own name and namespace. */
  function GetIngress(ings: seq<Ingress>, f: Faults, r: Redirect): Result<Ingress, Error> {
    Store.Inject(f.getIngress, Store.Get(ings, IngressKey, RedirectKey(r), IngressResource))
  }

  /** The Ingress the upsert writes: the builder applied to the fetched Ingress, or to the zero value when the fetch failed. */
  function DesiredIngress(ings: seq<Ingress>, f: Faults, r: Redirect, controllerRefSet: bool): Ingress {
    var fetched := GetIngress(ings, f, r);
    UpdateRedirectIngress(Some(if fetched.Success? then fetched.value else EmptyIngress), r, controllerRefSet)
  }

  /**
   The writes of `upsertRedirectIngress` once the fetch is done and the
   desired Ingress is built: a fetch error other than NotFound ends the upsert,
   NotFound creates the Ingress first, and the full update always follows.
   */
  function WriteIngress(ings: seq<Ingress>, f: Faults, fetched: Result<Ingress, Error>, desired: Ingress): (u: Upsert)
    requires fetched.Success? ==> fetched.value in ings && IngressKey(fetched.value) == IngressKey(desired)
    ensures u.desired == desired
    ensures forall w | w in u.writes :: w == CreateIngress(desired) || w == UpdateIngress(desired)
    // any fetch error other than NotFound: an error and no write
    ensures fetched.Failure? && fetched.error.reason != NotFound ==>
      u.result == Failure(Wrap(fetched.error, GetIngressContext)) && u.writes == [] && u.ingresses == ings
    // NotFound: a create, and only if it succeeds an update, both of the same object
    ensures fetched.Failure? && fetched.error.reason == NotFound ==>
      1 <= |u.writes| <= 2 && u.writes[0] == CreateIngress(desired) &&
      (|u.writes| == 2 ==> u.writes[1] == UpdateIngress(desired))
    ensures fetched.Failure? && fetched.error.reason == NotFound ==>
      var created := Store.Inject(f.createIngress, Store.Create(ings, IngressKey, desired, IngressResource));
      (|u.writes| == 2 <==> created.Success?) &&
      (created.Failure? ==> u.result == Failure(Wrap(created.error, CreateIngressContext)) && u.ingresses == ings)
    // a failed update leaves the store as the create (if any) left it
    ensures u.result.Failure? && |u.writes| < 2 ==> u.ingresses == ings
    // present: one full overwrite
    ensures fetched.Success? ==> u.writes == [UpdateIngress(desired)]
    // success: the store now holds the desired object under its key, that object is returned, and the update was the last write
    ensures u.result.Success? ==>
      u.result.value == desired && Store.Get(u.ingresses, IngressKey, IngressKey(desired), IngressResource) == Success(desired)
    ensures u.result.Success? ==> |u.writes| > 0 && u.writes[|u.writes| - 1] == UpdateIngress(desired)
    ensures u.result.Failure? ==> u.result.error.reason != NotFound || f.createIngress.Some? || f.updateIngress.Some?
  {
    if fetched.Failure? && fetched.error.reason != NotFound then
      Upsert(desired, Failure(Wrap(fetched.error, GetIngressContext)), ings, [])
    else
      var created := if fetched.Failure? then Store.Inject(f.createIngress, Store.Create(ings, IngressKey, desired, IngressResource)) else Success(ings);
      var createWrites := if fetched.Failure? then [CreateIngress(desired)] else [];
      if created.Failure? then
        Upsert(desired, Failure(Wrap(created.error, CreateIngressContext)), ings, createWrites)
      else
        assert fetched.Failure? ==> desired in created.value;
        PutDesired(created.value, f, desired, createWrites)
  }

  /** The full update that ends every upsert that got this far; only an injected fault makes it fail. */
  function PutDesired(ings: seq<Ingress>, f: Faults, desired: Ingress, writes: seq<Write>): (u: Upsert)
    requires exists x | x in ings :: IngressKey(x) == IngressKey(desired)
    ensures u.desired == desired && u.writes == writes + [UpdateIngress(desired)]
    ensures u.result.Success? <==> f.updateIngress.None?
    ensures u.result.Failure? ==> u.result.error == Wrap(f.updateIngress.value, UpdateIngressContext) && u.ingresses == ings
    ensures u.result.Success? ==>
      u.result.value == desired && Store.Get(u.ingresses, IngressKey, IngressKey(desired), IngressResource) == Success(desired)
  {
    var updated := Store.Inject(f.updateIngress, Store.Put(ings, IngressKey, desired, IngressResource));
    if updated.Failure? then
      Upsert(desired, Failure(Wrap(updated.error, UpdateIngressContext)), ings, writes + [UpdateIngress(desired)])
    else
      Store.GetAfterPut(ings, IngressKey, desired, IngressResource, IngressKey(desired));
      Upsert(desired, Success(desired), updated.value, writes + [UpdateIngress(desired)])
  }

  /** `upsertRedirectIngress`: fetch the Ingress named like the Redirect, rebuild it, write it. */
  function UpsertIngress(ings: seq<Ingress>, f: Faults, r: Redirect, controllerRefSet: bool): (u: Upsert)
    ensures u.desired == DesiredIngress(ings, f, r, controllerRefSet)
    ensures IngressKey(u.desired) == RedirectKey(r)
  {
    WriteIngress(ings, f, GetIngress(ings, f, r), DesiredIngress(ings, f, r, controllerRefSet))
  }

  /** The label selection of the Redirect stored under `k`: its namespace and its labels. */
  function Selector(k: Store.Key): Ingress -> bool {
    (ing: Ingress) => ing.meta.namespace == k.namespace && MatchesLabels(ing.meta.labels, GetLabelsForRedirect(k.name))
  }

  function Selected(ings: seq<Ingress>, k: Store.Key): seq<Ingress> {
    Store.Filter(ings, Selector(k))
  }

  /** `client.List` with `InNamespace` and `MatchingLabels`. */
  function ListIngresses(ings: seq<Ingress>, f: Faults, r: Redirect): (l: Result<seq<Ingress>, Error>)
    ensures l.Success? <==> f.listIngresses.None?
    ensures l.Success? ==> forall ing | ing in l.value ::
      ing in ings && ing.meta.namespace == r.namespace && MatchesLabels(ing.meta.labels, GetLabelsForRedirect(r.name))
    ensures l.Success? ==> forall ing | ing in ings && ing.meta.namespace == r.namespace &&
      MatchesLabels(ing.meta.labels, GetLabelsForRedirect(r.name)) :: ing in l.value
  {
    Store.Inject(f.listIngresses, Success(Selected(ings, RedirectKey(r))))
  }

  /** A map lookup in Go: a missing key reads as the empty string. */
  function AnnotationOf(ing: Ingress, key: string): string {
    if key in ing.meta.annotations then ing.meta.annotations[key] else ""
  }

  /** The status the step records: the listed Ingresses' names and the Ingress's redirect target. */
  function ObservedStatus(ing: Ingress, listed: seq<Ingress>): (st: RedirectStatus)
    ensures |st.ingressName| == |listed|
    ensures forall i | 0 <= i < |listed| :: st.ingressName[i] == listed[i].meta.name
  {
    RedirectStatus(GetIngressNames(listed), AnnotationOf(ing, PermanentRedirectKey))
  }

  /** `Status().Update`: only the status of the stored Redirect changes. */
  function WriteStatus(rs: seq<Redirect>, f: Faults, r: Redirect): (w: Result<seq<Redirect>, Error>)
    ensures w.Success? <==> f.updateStatus.None? && exists x | x in rs :: RedirectKey(x) == RedirectKey(r)
    ensures f.updateStatus.Some? ==> w == Failure(f.updateStatus.value)
    ensures w.Success? ==> |w.value| == |rs|
    ensures w.Success? ==> exists x | x in rs :: RedirectKey(x) == RedirectKey(r)
    ensures w.Success? ==> forall k :: (Store.Get(w.value, RedirectKey, k, RedirectResource) ==
      if k == RedirectKey(r) then Success(Store.Get(rs, RedirectKey, k, RedirectResource).value.(status := r.status))
      else Store.Get(rs, RedirectKey, k, RedirectResource))
  {
    Store.Inject(f.updateStatus,
      match Store.Get(rs, RedirectKey, RedirectKey(r), RedirectResource)
      case Failure(e) => Failure(e)
      case Success(stored) =>
        var put := Store.Put(rs, RedirectKey, stored.(status := r.status), RedirectResource);
        if put.Success? then
          forall k ensures Store.Get(put.value, RedirectKey, k, RedirectResource) ==
            if k == RedirectKey(r) then Success(stored.(status := r.status)) else Store.Get(rs, RedirectKey, k, RedirectResource)
          {
            Store.GetAfterPut(rs, RedirectKey, stored.(status := r.status), RedirectResource, k);
          }
          put
        else put)
  }

  /** The tail of the step once the listing succeeded: record the status and write it. */
  function RecordStatus(c: Cluster, f: Faults, r: Redirect, writes: seq<Write>, ing: Ingress, listed: seq<Ingress>): (s: Step)
    ensures s.cluster.ingresses == c.ingresses
    ensures s.writes == writes + [UpdateStatus(r.(status := ObservedStatus(ing, listed)))]
    ensures forall w | w in s.writes :: w in writes || w == UpdateStatus(r.(status := ObservedStatus(ing, listed)))
    // the status write's error is returned; otherwise the step is done
    ensures var w := WriteStatus(c.redirects, f, r.(status := ObservedStatus(ing, listed)));
      s.outcome == (if w.Failure? then Requeue(w.error) else Done) && (w.Success? ==> s.cluster.redirects == w.value)
    ensures s.outcome.Done? || s.outcome.Requeue?
  {
    var observed := r.(status := ObservedStatus(ing, listed));
    var written := WriteStatus(c.redirects, f, observed);
    if written.Failure? then Step(Requeue(written.error), c, writes + [UpdateStatus(observed)])
    else Step(Done, c.(redirects := written.value), writes + [UpdateStatus(observed)])
  }

  /** The step after the upsert `up` of the fetched Redirect `r`: list, then record the status. */
  function ReconcileFetched(c: Cluster, f: Faults, r: Redirect, up: Upsert): (s: Step)
    requires forall w | w in up.writes :: !w.UpdateStatus?
    ensures f.listIngresses.Some? ==> s.outcome == Requeue(f.listIngresses.value) && s.writes == up.writes
    ensures s.outcome.Panic? <==> f.listIngresses.None? && up.result.Failure?
    ensures forall w | w in s.writes && w.UpdateStatus? :: w.redirect.spec == r.spec
  {
    var c1 := c.(ingresses := up.ingresses);
    var listed := ListIngresses(c1.ingresses, f, r);
    if listed.Failure? then Step(Requeue(listed.error), c1, up.writes)
    else if up.result.Failure? then Step(Panic, c1, up.writes)
    else RecordStatus(c1, f, r, up.writes, up.result.value, listed.value)
  }

  /**
   `Reconcile`, as written. The upsert's error is only logged; when it failed
   but the listing succeeds, the step reads the annotations of the nil Ingress
   the upsert returned, which is a `Panic`.
   */
  function Reconcile(c: Cluster, f: Faults, req: Store.Key, controllerRefSet: bool): (s: Step)
    // a missing Redirect is done with; any other fetch error is returned; neither writes
    ensures GetRedirect(c, f, req).Failure? ==> (s.cluster == c && s.writes == [] &&
      s.outcome == if GetRedirect(c, f, req).error.reason == NotFound then Done else Requeue(GetRedirect(c, f, req).error))
    // a failed listing is returned, whatever the upsert did, and no status is written
    ensures GetRedirect(c, f, req).Success? && f.listIngresses.Some? ==>
      s.outcome == Requeue(f.listIngresses.value) && forall w | w in s.writes :: !w.UpdateStatus?
    // the crash: a failed upsert followed by a successful listing
    ensures s.outcome.Panic? <==> (GetRedirect(c, f, req).Success? && f.listIngresses.None? &&
      UpsertIngress(c.ingresses, f, GetRedirect(c, f, req).value, controllerRefSet).result.Failure?)
    // the Redirect's spec is never written
    ensures forall w | w in s.writes && w.UpdateStatus? :: GetRedirect(c, f, req).Success? && w.redirect.spec == GetRedirect(c, f, req).value.spec
    // once the upsert and the listing succeeded: the status write's error, or done
    ensures (GetRedirect(c, f, req).Success? && f.listIngresses.None? &&
             UpsertIngress(c.ingresses, f, GetRedirect(c, f, req).value, controllerRefSet).result.Success?) ==>
      s.outcome == (if f.updateStatus.Some? then Requeue(f.updateStatus.value) else Done)
  {
    var got := GetRedirect(c, f, req);
    if got.Failure? then
      Step(if got.error.reason == NotFound then Done else Requeue(got.error), c, [])
    else
      var up := UpsertIngress(c.ingresses, f, got.value, controllerRefSet);
      assert forall w | w in up.writes :: !w.UpdateStatus?;
      ReconcileFetched(c, f, got.value, up)
  }

  /**
   `Reconcile` as evidently intended: after a failed upsert the step records
   the status from the Ingress it meant to write.
   */
  function ReconcileCorrected(c: Cluster, f: Faults, req: Store.Key, controllerRefSet: bool): (s: Step)
    ensures !s.outcome.Panic?
    ensures !Reconcile(c, f, req, controllerRefSet).outcome.Panic? ==> s == Reconcile(c, f, req, controllerRefSet)
  {
    var got := GetRedirect(c, f, req);
    if got.Failure? then
      Step(if got.error.reason == NotFound then Done else Requeue(got.error), c, [])
    else
      var r := got.value;
      var up := UpsertIngress(c.ingresses, f, r, controllerRefSet);
      var c1 := c.(ingresses := up.ingresses);
      var listed := ListIngresses(c1.ingresses, f, r);
      if listed.Failure? then Step(Requeue(listed.error), c1, up.writes)
      else RecordStatus(c1, f, r, up.writes, up.desired, listed.value)
  }

  /**
   The crash needs nothing unusual: any stored Redirect whose Ingress cannot be
   read for a reason other than NotFound, followed by a successful listing.
   */
  lemma ReconcilePanicsOnIngressReadError(c: Cluster, f: Faults, req: Store.Key, controllerRefSet: bool)
    requires GetRedirect(c, f, req).Success?
    requires f.getIngress.Some? && f.getIngress.value.reason != NotFound
    requires f.listIngresses.None?
    ensures Reconcile(c, f, req, controllerRefSet).outcome == Panic
  {
    var r := GetRedirect(c, f, req).value;
    assert GetIngress(c.ingresses, f, r) == Failure(f.getIngress.value);
    assert UpsertIngress(c.ingresses, f, r, controllerRefSet).result.Failure?;
  }

  /** One concrete crash: the Redirect "docs" in "web" while reading its Ingress times out. */
  lemma ReconcilePanicExample()
    ensures var r := Redirect("docs", "web", RedirectSpec("docs.example.com", "example.com/docs", 308, "nginx", RedirectTLS(false, map[])), RedirectStatus([], ""));
      var f := NoFaults.(getIngress := Some(Error(Other, "request timed out", "")));
      Reconcile(Cluster([r], []), f, Store.Key("web", "docs"), true).outcome == Panic
  {
    var r := Redirect("docs", "web", RedirectSpec("docs.example.com", "example.com/docs", 308, "nginx", RedirectTLS(false, map[])), RedirectStatus([], ""));
    var f := NoFaults.(getIngress := Some(Error(Other, "request timed out", "")));
    assert Store.Find([r], RedirectKey, Store.Key("web", "docs")) == Some(0);
    assert GetRedirect(Cluster([r], []), f, Store.Key("web", "docs")) == Success(r);
    ReconcilePanicsOnIngressReadError(Cluster([r], []), f, Store.Key("web", "docs"), true);
  }

  /** Without faults a step always succeeds. */
  lemma FaultFreeReconcileIsDone(c: Cluster, req: Store.Key, controllerRefSet: bool)
    ensures Reconcile(c, NoFaults, req, controllerRefSet).outcome == Done
  {
    var got := GetRedirect(c, NoFaults, req);
    if got.Success? {
      var r := got.value;
      var up := UpsertIngress(c.ingresses, NoFaults, r, controllerRefSet);
      var fetched := GetIngress(c.ingresses, NoFaults, r);
      if fetched.Failure? {
        var created := Store.Create(c.ingresses, IngressKey, up.desired, IngressResource);
        assert created.Success?;
        assert up.desired in created.value;
      } else {
        assert fetched.value in c.ingresses;
      }
      assert up.result.Success?;
      var listed := ListIngresses(up.ingresses, NoFaults, r);
      var observed := r.(status := ObservedStatus(up.result.value, listed.value));
      assert Store.Get(c.redirects, RedirectKey, RedirectKey(observed), RedirectResource) == Success(r);
    }
  }

  /**
   What a successful step leaves behind: the desired Ingress stored under the
   Redirect's key, and the Redirect with its spec unchanged and its status
   naming exactly the selected Ingresses, in store order, with the redirect
   target the Ingress carries.
   */
  lemma ReconcileReadBack(c: Cluster, f: Faults, req: Store.Key, controllerRefSet: bool)
    requires GetRedirect(c, f, req).Success?
    requires UpsertIngress(c.ingresses, f, GetRedirect(c, f, req).value, controllerRefSet).result.Success?
    requires f.listIngresses.None? && f.updateStatus.None?
    ensures Reconcile(c, f, req, controllerRefSet).outcome == Done
    ensures var r := GetRedirect(c, f, req).value;
      var s := Reconcile(c, f, req, controllerRefSet);
      var d := UpsertIngress(c.ingresses, f, r, controllerRefSet).desired;
      Store.Get(s.cluster.ingresses, IngressKey, req, IngressResource) == Success(d) &&
      Store.Get(s.cluster.redirects, RedirectKey, req, RedirectResource) ==
        Success(r.(status := RedirectStatus(GetIngressNames(Selected(s.cluster.ingresses, req)), d.meta.annotations[PermanentRedirectKey])))
  {
    var r := GetRedirect(c, f, req).value;
    var s := Reconcile(c, f, req, controllerRefSet);
    var up := UpsertIngress(c.ingresses, f, r, controllerRefSet);
    assert up.result.Success? && f.listIngresses.None?;
    var listed := Selected(up.ingresses, req);
    var observed := r.(status := ObservedStatus(up.desired, listed));
    assert s == RecordStatus(c.(ingresses := up.ingresses), f, r, up.writes, up.desired, listed);
    assert Store.Get(c.redirects, RedirectKey, req, RedirectResource) == Success(r);
    var w := WriteStatus(c.redirects, f, observed);
    assert w.Success? && s.cluster.redirects == w.value;
    assert AnnotationOf(up.desired, PermanentRedirectKey) == up.desired.meta.annotations[PermanentRedirectKey];
  }

  /** The status target is the normalised Redirect target unless a TLS annotation overrides it. */
  lemma StatusTargetIsNormalizedTarget(r: Redirect, ing: Option<Ingress>, listed: seq<Ingress>, controllerRefSet: bool)
    requires !(r.spec.tls.enable && PermanentRedirectKey in r.spec.tls.annotations)
    ensures ObservedStatus(UpdateRedirectIngress(ing, r, controllerRefSet), listed).target == NormalizeUrl(r.spec.target)
  {
    assert PermanentRedirectKey in BaseAnnotations(r);
  }

  /** Over a store that already holds a fixed point of the builder, the upsert writes that Ingress back unchanged. */
  lemma UpsertOfDesiredIsNoOp(ings: seq<Ingress>, r: Redirect, d: Ingress, controllerRefSet: bool)
    requires Store.Get(ings, IngressKey, RedirectKey(r), IngressResource) == Success(d)
    requires UpdateRedirectIngress(Some(d), r, controllerRefSet) == d
    ensures UpsertIngress(ings, NoFaults, r, controllerRefSet) == Upsert(d, Success(d), ings, [UpdateIngress(d)])
  {
    assert GetIngress(ings, NoFaults, r) == Success(d);
    Store.PutStoredIsNoOp(ings, IngressKey, d, IngressResource);
  }

  /** Recording the status a stored Redirect already carries leaves the cluster as it is. */
  lemma RecordStoredStatusIsNoOp(c: Cluster, r: Redirect, writes: seq<Write>, ing: Ingress, listed: seq<Ingress>)
    requires Store.Get(c.redirects, RedirectKey, RedirectKey(r), RedirectResource) == Success(r)
    requires r.status == ObservedStatus(ing, listed)
    ensures RecordStatus(c, NoFaults, r, writes, ing, listed) == Step(Done, c, writes + [UpdateStatus(r)])
  {
    assert r.(status := ObservedStatus(ing, listed)) == r;
    Store.PutStoredIsNoOp(c.redirects, RedirectKey, r, RedirectResource);
  }

  /**
   A settled cluster, where the Redirect's Ingress is already what the builder
   makes of it and the status already names what the listing finds, is left
   as it is by a fault-free step, which still sends both writes.
   */
  lemma SettledReconcileIsNoOp(c: Cluster, req: Store.Key, r: Redirect, d: Ingress, controllerRefSet: bool)
    requires GetRedirect(c, NoFaults, req) == Success(r)
    requires Store.Get(c.ingresses, IngressKey, req, IngressResource) == Success(d)
    requires UpdateRedirectIngress(Some(d), r, controllerRefSet) == d
    requires r.status == ObservedStatus(d, Selected(c.ingresses, req))
    ensures Reconcile(c, NoFaults, req, controllerRefSet) == Step(Done, c, [UpdateIngress(d), UpdateStatus(r)])
  {
    UpsertOfDesiredIsNoOp(c.ingresses, r, d, controllerRefSet);
    assert c.(ingresses := c.ingresses) == c;
    RecordStoredStatusIsNoOp(c, r, [UpdateIngress(d)], d, Selected(c.ingresses, req));
  }

  /**
   A second fault-free step over the cluster the first one left changes
   nothing, and rewrites the same desired Ingress.
   */
  lemma ReconcileConverges(c: Cluster, req: Store.Key, controllerRefSet: bool)
    ensures var s1 := Reconcile(c, NoFaults, req, controllerRefSet);
      var s2 := Reconcile(s1.cluster, NoFaults, req, controllerRefSet);
      s2.cluster == s1.cluster && s2.outcome == Done &&
      (GetRedirect(c, NoFaults, req).Success? ==>
        var d := UpsertIngress(c.ingresses, NoFaults, GetRedirect(c, NoFaults, req).value, controllerRefSet).desired;
        UpdateIngress(d) in s1.writes && |s2.writes| == 2 && s2.writes[0] == UpdateIngress(d))
  {
    var s1 := Reconcile(c, NoFaults, req, controllerRefSet);
    FaultFreeReconcileIsDone(c, req, controllerRefSet);
    var got := GetRedirect(c, NoFaults, req);
    if got.Success? {
      var r := got.value;
      var up := UpsertIngress(c.ingresses, NoFaults, r, controllerRefSet);
      var d := up.desired;
      assert UpdateIngress(d) in up.writes;
      ReconcileReadBack(c, NoFaults, req, controllerRefSet);
      var ings1 := s1.cluster.ingresses;
      var st := RedirectStatus(GetIngressNames(Selected(ings1, req)), d.meta.annotations[PermanentRedirectKey]);
      var r2 := r.(status := st);
      assert GetRedirect(s1.cluster, NoFaults, req) == Success(r2);
      var fetched := GetIngress(c.ingresses, NoFaults, r);
      BuilderIdempotent(Some(if fetched.Success? then fetched.value else EmptyIngress), r, controllerRefSet);
      BuilderIgnoresRedirectStatus(Some(d), r, st, controllerRefSet);
      assert AnnotationOf(d, PermanentRedirectKey) == d.meta.annotations[PermanentRedirectKey];
      SettledReconcileIsNoOp(s1.cluster, req, r2, d, controllerRefSet);
    }
  }

  /** The older controller's redirect bookkeeping: the last count, the cumulative counter and the gauge. */
  datatype Metrics = Metrics(redirectCount: int, counter: int, gauge: int)

  /** The initial bookkeeping of a new reconciler. */
  const InitialMetrics: Metrics := Metrics(0, 0, 0)

  /**
   A successful listing of `n` Redirects sets the gauge and the count to `n`
   and moves the counter by the change in count; a failed listing (`None`)
   changes nothing.
   */
  function ObserveRedirects(m: Metrics, listed: Option<nat>): (m': Metrics)
    ensures listed.None? ==> m' == m
    ensures listed.Some? ==> m'.redirectCount == listed.value && m'.gauge == listed.value
    ensures m'.counter - m'.redirectCount == m.counter - m.redirectCount
  {
    match listed
    case None => m
    case Some(n) => Metrics(n, m.counter + (n - m.redirectCount), n)
  }

  /** The last successful listing of `listings`, or `fallback` if none succeeded. */
  function LastListed(listings: seq<Option<nat>>, fallback: int): int
    decreases |listings|
  {
    if |listings| == 0 then fallback
    else LastListed(listings[1..], if listings[0].Some? then listings[0].value else fallback)
  }

  /** The bookkeeping after a sequence of reconcile steps. */
  function ObserveAll(m: Metrics, listings: seq<Option<nat>>): (m': Metrics)
    ensures m'.redirectCount == LastListed(listings, m.redirectCount)
    ensures m'.counter - m'.redirectCount == m.counter - m.redirectCount
    decreases |listings|
  {
    if |listings| == 0 then m else ObserveAll(ObserveRedirects(m, listings[0]), listings[1..])
  }

  /** Starting from zero, the cumulative counter is the length of the last successful listing. */
  lemma CounterIsLastListing(listings: seq<Option<nat>>)
    ensures ObserveAll(InitialMetrics, listings).counter == LastListed(listings, 0)
  {
  }

  datatype LegacyStep = LegacyStep(metrics: Metrics, step: Step)

  /** The older `Reconcile`: the bookkeeping, then the same step as the current controller. */
  function ReconcileLegacy(m: Metrics, listed: Option<nat>, c: Cluster, f: Faults, req: Store.Key, controllerRefSet: bool): (s: LegacyStep)
    ensures s.step == Reconcile(c, f, req, controllerRefSet)
    ensures listed.Some? ==> s.metrics.counter == m.counter + (listed.value - m.redirectCount) && s.metrics.redirectCount == listed.value
    ensures listed.None? ==> s.metrics == m
  {
    LegacyStep(ObserveRedirects(m, listed), Reconcile(c, f, req, controllerRefSet))
  }
}
