# urlshortener in Dafny

A model of the core of urlshortener. The service is a Kubernetes operator with
an HTTP API for short links. It has two halves.

- **Redirect controller.** It turns a `Redirect` custom resource into an nginx
  Ingress whose annotations perform the redirect. It then records on the
  Redirect which Ingresses carry its labels and where they redirect to.
- **Shortlink API.** It stores `Shortlink` custom resources and serves them:
  - a public endpoint redirects a short name to its target and counts the hit;
  - authenticated CRUD endpoints give each GitHub user their own Shortlinks.
  The user is identified by a bearer token.

The model is pure functions over immutable data. Each of the following is a module.

| module | models |
|---|---|
| `Store` | The Kubernetes API server as a sequence of objects addressed by namespace and name. It has get, create, full-overwrite update, delete and filtered list. Any call may instead fail with an error that a `Faults` record supplies for that call site, so every error branch of the callers can be reached. |
| `Errors` | Errors carry a reason, the text of `Error()` and a humane advice text. Also covers `errors.Wrap` and `NewNotAllowedError`. |
| `V1alpha1` | The Shortlink and Redirect types, `IsOwnedBy` and the schema's defaults and bounds. |
| `Ingresses` | The Ingress builder `UpdateRedirectIngress`, `normalizeUrl`, the label set, `GetIngressNames` and the TLS secret name. |
| `RedirectReconciler` | One reconcile step of the Redirect controller. The current and the older controller share it. The older controller's redirect counter is modelled as well. |
| `ShortlinkClient` | The typed Shortlink client. Writes through the main resource keep the stored status. Writes through the status subresource keep the stored spec. |
| `UserShortlinkClient` | Both versions of the ownership-scoped client, chosen by `Variant`. |
| `Middleware` | Bearer-token extraction and the authentication middleware. |
| `Handlers` | The six HTTP handlers. |
| `Text`, `Wrappers` | String helpers from Go's `strings` and `fmt`, plus `Option` and `Result`. |

These effects become parameters:
- the clock, tracing and logging are dropped;
- the service-account namespace file is an `Env` holding its contents or a read error;
- the GitHub user lookup is a function `lookup` from token to user or error;
- reading and decoding a request body is a `BodyInput`;
- `ctrl.SetControllerReference` is a flag saying whether it succeeded;
- the outcome of each store call is an optional injected error;
- the older controller's Redirect listing (`r.rClient.List`, controllers/redirect_controller.go:128) is a parameter `listed`: the number of Redirects listed, or none when the listing fails.

Two functions add a scheme to a target, and they differ:
- The redirect handler puts "http://" in front only when the target does not start with "http" (pkg/api/handle_shortlink.go:83-92).
- The "$request_uri" suffix is added only by `normalizeUrl`, for the Ingress annotation (pkg/redirect/ingress.go:103-112).

So `Handlers.RedirectTarget` and `Ingresses.NormalizeUrl` are two separate functions.

## Model

| member | source | states |
|---|---|---|
| Errors.Wrap | internal/controller/redirect_controller.go:162-169 | A wrapped error keeps its reason and advice. Its message is the context, ": ", then the cause's message. |
| Errors.WrapPreservesNotFound | pkg/client/user_shortlink.go:59 | Wrapping with a context that does not say "not found" neither adds nor removes that phrase. So the handlers' 404/500 decision sees through the wrapper. |
| Errors.OperationName | pkg/client/errors.go:9-16 | Each CRUD operation renders as one of "create", "read", "update", "delete", and none of these says "not found". |
| Errors.OperationNamesDistinct | pkg/client/errors.go:12-15 | Different operations render as different strings, so a refusal names the operation refused. |
| Errors.NotAllowedMessageMentionsNotFound | pkg/client/errors.go:20-24 | The not-allowed message says "not found" exactly when the operation, the user name or the Shortlink name does. |
| Errors.NewNotAllowedError | pkg/client/errors.go:18-26 | The refusal has reason NotAllowed and the fixed permissions advice, for every argument. Its message says "not found" iff one of its arguments does. |
| Store.Get | pkg/client/shortlink.go:67-74 | `client.Get` returns a stored object with the key. It is the first object stored under the key. It fails with the NotFound status exactly when no stored object has the key. Put and Delete also work on that first object. |
| Store.NotFoundError | pkg/client/shortlink.go:69-71 | The NotFound status has reason NotFound and its text contains "not found". |
| Store.Create | pkg/client/shortlink.go:173-176 | `client.Create` succeeds iff the key is free, and then appends the object. Otherwise it fails with AlreadyExists. |
| Store.Put | pkg/client/shortlink.go:111-114 | `client.Update` succeeds iff the key is stored. It keeps the store's size and key order, and the new object is stored. Otherwise it fails with NotFound. |
| Store.Delete | pkg/client/shortlink.go:149-152 | `client.Delete` succeeds iff the key is stored. It removes the first object stored under the key, and the others keep their order. Otherwise it fails with NotFound. |
| Store.Filter | pkg/client/shortlink.go:99 | A selection holds exactly the stored objects that satisfy the selector, and is empty iff none does. |
| Store.FilterConcat | pkg/client/shortlink.go:99 | Selection distributes over concatenation, so a listing keeps store order. |
| Store.GetAfterPut | pkg/client/shortlink.go:107-117 | Read-after-write for update: the written key reads back the new object, and every other key reads as before. |
| Store.PutStoredIsNoOp | internal/controller/redirect_controller.go:168 | Writing back the object already stored leaves the store unchanged. |
| Store.GetAfterCreate | pkg/client/shortlink.go:173 | Read-after-write for create: the new key reads back the new object, and every other key reads as before. |
| Store.GetAfterDelete | pkg/client/shortlink.go:149 | With unique keys, after a delete the deleted key reads as NotFound and every other key reads as before. |
| Store.CreateKeepsKeysUnique | pkg/client/shortlink.go:173 | Create keeps the API server's guarantee that no two objects share a namespace and name. |
| Store.PutKeepsKeysUnique | pkg/client/shortlink.go:111 | Update keeps keys unique. |
| Store.DeleteKeepsKeysUnique | pkg/client/shortlink.go:149 | Delete keeps keys unique. |
| V1alpha1.SliceContains | api/v1alpha1/shortlink_types.go:110-112 | The front-to-back scan of `slices.Contains` finds a name iff the name is among the co-owners. |
| V1alpha1.OwnedIffOwnerOrCoOwner | api/v1alpha1/shortlink_types.go:110-112 | A user owns a Shortlink iff the user is in the set of its owner and co-owners. |
| V1alpha1.AddingCoOwnerOnlyGrants | api/v1alpha1/shortlink_types.go:110-112 | Adding a co-owner makes it an owner and takes ownership from nobody. |
| V1alpha1.WithDefaults | api/v1alpha1/shortlink_types.go:44-50 | A zero code travels as an absent field and becomes exactly the default 307, with every other field unchanged. A spec with a code is left alone. |
| V1alpha1.DefaultedSpecIsValid | api/v1alpha1/shortlink_types.go:37-49 | A spec that meets the target, delay and code markers, or that leaves out only the code, is valid once defaulted. A left-out code becomes 307. |
| Ingresses.GetLabelsForRedirect | pkg/redirect/ingress.go:87-89 | The labels are exactly app=urlshortener and redirect=<name>. |
| Ingresses.LabelsSelectOneRedirect | pkg/redirect/ingress.go:87-89 | No Ingress carries the labels of two differently named Redirects. |
| Ingresses.NormalizeUrl | pkg/redirect/ingress.go:103-112 | A target that matches `^(.+)(://).*$` is unchanged. Any other target becomes "http://" + target + "$request_uri". |
| Ingresses.NormalizeUrlIdempotent | pkg/redirect/ingress.go:103-112 | For a newline-free target, the normalised URL has a protocol, so normalising twice equals normalising once. |
| Ingresses.NormalizeUrlBareHost | pkg/redirect/ingress.go:106-108 | A target without ':' becomes "http://" + target + "$request_uri". |
| Ingresses.NormalizeUrlExplicitScheme | pkg/redirect/ingress.go:105-106 | A newline-free target with a non-empty scheme before "://" is left as it is. |
| Ingresses.NormalizeUrlEmptyScheme | pkg/redirect/ingress.go:105-108 | "://" with nothing before it does not count as a protocol, so the target is prefixed anyway. |
| Ingresses.TlsSecretName | pkg/redirect/ingress.go:67 | The secret name is the source host with each '.' replaced by '-', followed by "-redirect-secret". It contains no dot. |
| Ingresses.TlsSecretNameOfDotFreeHost | pkg/redirect/ingress.go:67 | A host without dots keeps its name, followed by the suffix. |
| Ingresses.TlsSecretNameReplacesDot | pkg/redirect/ingress.go:67 | A dot after a dot-free first part becomes a dash, and the rest is processed the same way. |
| Ingresses.UpdateRedirectIngress | pkg/redirect/ingress.go:18-83 | See the breakdown after this table. |
| Ingresses.BuilderIgnoresExistingObject | pkg/redirect/ingress.go:21-36 | The metadata and spec of the Ingress handed in are ignored. A nil Ingress is treated as the zero value. |
| Ingresses.BuilderIdempotent | pkg/redirect/ingress.go:18-83 | Rebuilding a built Ingress changes nothing. |
| Ingresses.BuilderIgnoresRedirectStatus | pkg/redirect/ingress.go:18-83 | The Redirect's status plays no part in the Ingress built. |
| Ingresses.GetIngressNames | pkg/redirect/ingress.go:93-101 | The names, one per Ingress and in order. |
| Ingresses.GetIngressNamesConcat | pkg/redirect/ingress.go:93-101 | The names of a concatenation are the concatenated names. |
| Text.DecimalRoundTrip | pkg/redirect/ingress.go:32 | The `%d` rendering of every integer, negative ones included, parses back to that integer. |
| RedirectReconciler.GetRedirect | internal/controller/redirect_controller.go:94-96 | A fetched Redirect is stored, under the requested key. |
| RedirectReconciler.WriteIngress | internal/controller/redirect_controller.go:159-172 | See the breakdown after this table. |
| RedirectReconciler.PutDesired | internal/controller/redirect_controller.go:168-172 | The full update always ends an upsert that got this far, and fails only through a fault. On failure the error is wrapped with "Failed to update redirect Ingress". On success the store holds the desired Ingress. |
| RedirectReconciler.UpsertIngress | internal/controller/redirect_controller.go:155-173 | The Ingress written is the builder applied to the fetched Ingress, or to the zero value when the fetch failed. It is stored under the Redirect's own name and namespace. |
| RedirectReconciler.ListIngresses | internal/controller/redirect_controller.go:125-131 | The listing succeeds iff no fault is injected. It returns exactly the Ingresses of the Redirect's namespace that carry its labels. |
| RedirectReconciler.ObservedStatus | internal/controller/redirect_controller.go:140-143 | The status names the listed Ingresses, one name each and in order. |
| RedirectReconciler.WriteStatus | internal/controller/redirect_controller.go:144 | The status subresource write succeeds iff no fault hits it and the Redirect is stored. An injected fault is the error returned. The write changes only the status of the stored Redirect, and leaves every other key as it was. |
| RedirectReconciler.RecordStatus | internal/controller/redirect_controller.go:140-152 | Recording sends one status write and leaves the Ingresses alone. It ends Done when that write succeeds, and the cluster then holds the written Redirects. Otherwise it requeues with the write's error. |
| RedirectReconciler.ReconcileFetched | internal/controller/redirect_controller.go:116-152 | A failed listing is requeued. The step panics iff the listing succeeds after a failed upsert. Every status write keeps the Redirect's spec. |
| RedirectReconciler.Reconcile | internal/controller/redirect_controller.go:73-153 | See the breakdown after this table. |
| RedirectReconciler.ReconcileCorrected | internal/controller/redirect_controller.go:116-152 | The intended step never panics, and equals the step as written wherever that one does not panic. |
| RedirectReconciler.ReconcilePanicsOnIngressReadError | internal/controller/redirect_controller.go:142 | When the Ingress read fails for a reason other than NotFound and the listing succeeds, the step panics. |
| RedirectReconciler.ReconcilePanicExample | controllers/redirect_controller.go:171 | One concrete crash: the Redirect "docs" in "web", with the Ingress read timing out. |
| RedirectReconciler.FaultFreeReconcileIsDone | internal/controller/redirect_controller.go:73-153 | Without faults, every step ends Done, whether or not the Redirect exists. |
| RedirectReconciler.ReconcileReadBack | internal/controller/redirect_controller.go:116-152 | A step whose Redirect is fetched, whose upsert succeeds, and whose listing and status write meet no fault ends Done. After it, the desired Ingress is stored under the Redirect's key. The stored Redirect keeps its spec, and its status holds the selected Ingresses' names in store order plus the annotation target. |
| RedirectReconciler.StatusTargetIsNormalizedTarget | internal/controller/redirect_controller.go:143 | Unless a TLS annotation overrides it, the recorded target is the normalised Redirect target. |
| RedirectReconciler.UpsertOfDesiredIsNoOp | internal/controller/redirect_controller.go:155-173 | If the stored Ingress is already what the builder makes, the upsert writes it back and changes nothing. |
| RedirectReconciler.RecordStoredStatusIsNoOp | internal/controller/redirect_controller.go:140-152 | Recording the status already stored changes nothing. |
| RedirectReconciler.SettledReconcileIsNoOp | internal/controller/redirect_controller.go:73-153 | A settled cluster is left as it is by a fault-free step, which still sends its two writes. |
| RedirectReconciler.ReconcileConverges | internal/controller/redirect_controller.go:73-153 | A second fault-free step over the cluster the first one left changes nothing, and rewrites the same Ingress. |
| RedirectReconciler.ObserveRedirects | controllers/redirect_controller.go:127-133 | After a successful listing of n Redirects, the gauge and the count are n, and the counter moves by the change in count. After a failed listing, nothing changes. |
| RedirectReconciler.ObserveAll | controllers/redirect_controller.go:127-133 | Over many steps the count is the last successful listing, and the counter keeps its offset from the count. |
| RedirectReconciler.CounterIsLastListing | controllers/redirect_controller.go:131-132 | From a fresh reconciler, the cumulative counter equals the size of the last successful listing. |
| RedirectReconciler.ReconcileLegacy | controllers/redirect_controller.go:108-179 | The older controller does its bookkeeping and then takes the same step as the current one. A successful listing of n Redirects sets the count to n and moves the counter by n minus the old count. A failed listing changes no metric. |
| ShortlinkClient.GetNamespaced | pkg/client/shortlink.go:57-75 | Returns the stored object with the key, or the store's error unchanged. Without a fault it fails iff the key is absent. |
| ShortlinkClient.Get | pkg/client/shortlink.go:34-46 | An unreadable namespace file gives its error wrapped with "Unable to read current namespace". Otherwise the lookup is in the pod's namespace. |
| ShortlinkClient.ListNamespaced | pkg/client/shortlink.go:93-105 | Exactly the Shortlinks of the namespace, unless the listing fails. |
| ShortlinkClient.List | pkg/client/shortlink.go:78-90 | The same namespace-file error path as Get, then ListNamespaced in the pod's namespace. |
| ShortlinkClient.Update | pkg/client/shortlink.go:107-117 | A main-resource write succeeds iff the key is stored and no fault hits it. The caller's object comes back with the caller's spec and the status the store held before. It is exactly what a read of the key now returns. |
| ShortlinkClient.UpdateStatus | pkg/client/shortlink.go:119-129 | A status write succeeds iff the key is stored and no fault hits it. The caller's object comes back with the caller's status and the spec the store held before. It is exactly what a read of the key now returns. |
| ShortlinkClient.GetAfterUpdate | pkg/client/shortlink.go:107-117 | After a main-resource write, the key reads back with the caller's spec and the status the store already had. Other keys read as before. |
| ShortlinkClient.GetAfterUpdateStatus | pkg/client/shortlink.go:119-129 | After a status write, the key reads back with the caller's status and the spec the store already had. Other keys read as before. |
| ShortlinkClient.IncrementInvocationCount | pkg/client/shortlink.go:131-143 | The caller's count is one higher before the write, and stays so if the write fails. |
| ShortlinkClient.IncrementReadBack | pkg/client/shortlink.go:131-143 | Counting a fresh copy of the stored Shortlink stores a count one higher and changes nothing else. |
| ShortlinkClient.Delete | pkg/client/shortlink.go:145-155 | Succeeds iff the key is stored and no fault hits it. The first Shortlink stored under the key goes, and the others keep their order. |
| ShortlinkClient.GetAfterDelete | pkg/client/shortlink.go:145-155 | With unique keys, the deleted Shortlink reads as NotFound and every other one reads as before. |
| ShortlinkClient.Create | pkg/client/shortlink.go:157-179 | An object without a namespace goes into the pod's namespace. When that namespace cannot be read, nothing is created. The store keeps the spec and starts a fresh status. |
| ShortlinkClient.CreateNamespacedIgnoresEnv | pkg/client/shortlink.go:161-170 | An object that already has a namespace is created without reading the namespace file. |
| ShortlinkClient.GetAfterCreate | pkg/client/shortlink.go:157-179 | A created Shortlink reads back with its spec and a zero count. |
| ShortlinkClient.WritesKeepCountsValid | api/v1alpha1/shortlink_types.go:56-58 | The schema's non-negative invocation count survives the client's writes. If every stored count is valid, it stays so after a create, an update, or counting a copy of a stored Shortlink. |
| UserShortlinkClient.DenialOperation | pkg/client/user_shortlink_client.go:65 | The older client names every refusal "delete". The current client names the operation refused. |
| UserShortlinkClient.Owned | pkg/client/user_shortlink.go:36-44 | Exactly the listed Shortlinks the user owns. |
| UserShortlinkClient.OwnedKeepsOrder | pkg/client/user_shortlink.go:36-44 | Ownership filtering keeps list order. |
| UserShortlinkClient.EmptyListRefusalMentionsNotFound | pkg/client/user_shortlink.go:46-48 | The refusal of an empty listing says "not found" only when the user name does. |
| UserShortlinkClient.List | pkg/client/user_shortlink.go:25-51 | See the breakdown after this table. |
| UserShortlinkClient.GetContextKeepsNotFound | pkg/client/user_shortlink.go:59 | Wrapping with "Unable to get shortlink" keeps an error's "not found" verdict. |
| UserShortlinkClient.Get | pkg/client/user_shortlink.go:53-67 | Succeeds iff the Shortlink is read and owned by the user. A store error comes back wrapped, with its "not found" verdict unchanged. A Shortlink the user does not own is refused with a read refusal. |
| UserShortlinkClient.Create | pkg/client/user_shortlink.go:69-75 | The caller becomes the owner, whatever the object said. There is no ownership check. |
| UserShortlinkClient.Update | pkg/client/user_shortlink.go:77-91 | Ownership is judged on the object passed in. A non-owner is refused and nothing is written. After a successful write the result has the caller's spec, the caller as `changedBy`, and the same key. |
| UserShortlinkClient.GetAfterUpdate | pkg/client/user_shortlink.go:84-90 | After a successful update, the store holds the caller's spec and the stored status with the caller as `changedBy`. |
| UserShortlinkClient.UpdatePartialProgress | pkg/client/user_shortlink.go:84-90 | If the status write fails after the spec write succeeded, the new spec stays stored with the old status, and the status error is returned. |
| UserShortlinkClient.Delete | pkg/client/user_shortlink.go:93-102 | A non-owner is refused. An owner's delete is the store's delete. |
| UserShortlinkClient.LegacyRefusalsSayDelete | pkg/client/user_shortlink_client.go:65-106 | In the older client, every refusal reads as a refused "delete", whatever the operation. |
| Middleware.ExtractBearerToken | pkg/api/middleware/helper.go:26-42 | An empty header is "Missing Authorization header". A header without a space is "Invalid Authorization header format". Every failure carries the advice. A token is a suffix of the header. |
| Middleware.ExtractBearerTokenExactly | pkg/api/middleware/helper.go:34-41 | A header is accepted with a given token iff it is "bearer" in any casing, one space, then that token, verbatim. |
| Middleware.ExtractBearerTokenRoundTrip | pkg/api/middleware/helper.go:34-41 | Every casing of "bearer", a space and any token yields that token. |
| Middleware.TokenSchemeRefused | pkg/api/middleware/helper.go:35-38 | The "token" scheme that the advice text mentions is refused. |
| Middleware.GitHubUserAuth | pkg/api/middleware/auth_middleware.go:13-47 | The request goes on iff a token could be extracted. Otherwise it is aborted with 401, the extraction error and the advice. The user name is set iff the lookup succeeds, and it is the account's display name. |
| Middleware.HandlerUserNameEmpty | pkg/api/middleware/auth_middleware.go:36-45 | The name the handlers see is empty exactly when the lookup failed or the account has no display name. |
| Handlers.StatusFor | pkg/api/handle_get_shortlink.go:56-70 | 404 iff the error's text contains "not found", else 500. |
| Handlers.RedirectTarget | pkg/api/handle_shortlink.go:83-92 | A target starting with "http" is kept. Any other target gets "http://" in front. The result always starts with "http". |
| Handlers.RedirectTargetIdempotent | pkg/api/handle_shortlink.go:83-92 | Prefixing happens at most once, and "httpbin.org" is left as it is. |
| Handlers.HandleShortLink | pkg/api/handle_shortlink.go:36-114 | See the breakdown after this table. |
| Handlers.RedirectIgnoresIncrementFault | pkg/api/handle_shortlink.go:110-113 | The response does not depend on whether the count could be written. |
| Handlers.RedirectCountsOnce | pkg/api/handle_shortlink.go:94-113 | A redirect stores a count exactly one higher and leaves the rest of the Shortlink alone. |
| Handlers.RedirectMissingIs404 | pkg/api/handle_shortlink.go:55-75 | A name that is not stored answers 404 and counts nothing. |
| Handlers.HandleGetShortLink | pkg/api/handle_get_shortlink.go:33-77 | No user gives 401. A client error gives 404 or 500 by its text. Otherwise 200 with the API projection. |
| Handlers.GetByNonOwnerIs500 | pkg/api/handle_get_shortlink.go:56-70 | A stored Shortlink the caller does not own answers 500, not 404 or 403, when neither name says "not found". |
| Handlers.GetMissingIs404 | pkg/api/handle_get_shortlink.go:56-70 | A name that is not stored answers 404 through the wrapped store error. |
| Handlers.Views | pkg/api/handle_list_shortlink.go:67-77 | One API projection per Shortlink, in order. |
| Handlers.HandleListShortLink | pkg/api/handle_list_shortlink.go:32-78 | No user gives 401. A client error gives 404 or 500 by its text. Otherwise 200 with the projections of the user's Shortlinks. |
| Handlers.ListShowsExactlyOwned | pkg/api/handle_list_shortlink.go:55-77 | A 200 listing shows every Shortlink of the namespace the caller owns, and only those. |
| Handlers.ListOfSomethingOwned | pkg/api/handle_list_shortlink.go:55-77 | A caller who owns a Shortlink of the namespace, with a readable namespace and no listing fault, gets 200 from either client, and the listing shows that Shortlink. |
| Handlers.ListOfNothingOwned | pkg/api/handle_list_shortlink.go:55-65 | A caller who owns nothing gets 500 from the current client and an empty 200 list from the older one. |
| Handlers.HandleCreateShortLink | pkg/api/handle_create_shortlink.go:39-102 | No user gives 401. A body that cannot be read or decoded gives 500 and writes nothing. Any create error answers 500 and writes nothing. A 200 appends exactly one Shortlink, with the given name, the body's spec owned by the caller, and a fresh status, and returns it. |
| Handlers.CreatedIsOwnedByCaller | pkg/api/handle_create_shortlink.go:72-101 | A created Shortlink reads back from the store, owned by its creator. |
| Handlers.HandleUpdateShortLink | pkg/api/handle_update_shortlink.go:35-122 | No user gives 401. A read or decode failure gives 500, with the wrapped message and the cause. A failed lookup gives 404 or 500. After a successful lookup, any update error gives 500, and the store is whatever the scoped update left. A 200 returns the body's spec with the caller as `changedBy`. |
| Handlers.UpdateNeedsOwnershipBeforeAndAfter | pkg/api/handle_update_shortlink.go:84-115 | A 200 update needs the caller to own both the stored Shortlink and the new spec. It stores the new spec with the caller as `changedBy`. |
| Handlers.UpdateGivingAwayIsRefused | pkg/api/handle_update_shortlink.go:105-115 | An update whose spec leaves the caller out is refused with 500 and writes nothing. |
| Handlers.HandleDeleteShortLink | pkg/api/handle_delete_shortlink.go:30-89 | No user gives 401. A failed lookup or a failed delete gives 404 or 500 by the error's text, and writes nothing. A 200 has no body, removes one Shortlink, and leaves the store that the scoped client's delete of the looked-up Shortlink left. |
| Handlers.DeleteRemovesOnlyIt | pkg/api/handle_delete_shortlink.go:53-88 | With unique keys, a 200 delete removes the caller's Shortlink and no other. |
| Handlers.FailedLookupIsUnauthorized | pkg/api/middleware/auth_middleware.go:36-45 | A request whose GitHub lookup failed reaches the handlers without a user name, and is answered 401. |

`Ingresses.UpdateRedirectIngress` states:
- The name and namespace are the Redirect's, and the labels are the Redirect's label set.
- There is a controller owner reference iff `SetControllerReference` succeeded.
- The three nginx annotations are present: the rewrite target, the normalised target, and the code as a decimal that parses back to the code.
- When TLS is on, the TLS annotations are added on top and win.
- There is one host rule, with a "/" prefix path to http-svc:80.
- There is a TLS entry iff TLS is enabled.
- The Ingress status is untouched.

`RedirectReconciler.WriteIngress` states:
- A read error other than NotFound writes nothing, leaves the store alone, and fails with the error wrapped in "Failed to get redirect Ingress".
- NotFound leads to a create. The update follows iff the create succeeds.
- A failed create leaves the store alone and fails with its error wrapped in "Failed to create new Ingress".
- A failure before the second write leaves the store as it was.
- A present Ingress gets one full update.
- On success the desired Ingress is stored and returned, and the update was the last write.

`RedirectReconciler.Reconcile` states:
- A missing Redirect ends Done. Any other fetch error is requeued. Neither writes anything.
- A failed listing is requeued without a status write.
- After a fetched Redirect, a successful upsert and a successful listing, the step requeues with the status write's fault if there is one, and otherwise ends Done.
- The step panics iff the Redirect was fetched, the upsert failed and the listing succeeded.
- Every status write keeps the Redirect's spec.

`UserShortlinkClient.List` states:
- A store error is passed on unchanged.
- A success returns exactly the owned Shortlinks of the namespace.
- A successful store listing comes back as its owned part. The only exception is the current client's refusal of an empty owned part.
- The current client refuses an empty result with a read refusal.
- The older client returns the empty result.

`Handlers.HandleShortLink` states:
- Every response carries the Cache-Control header.
- A failed read renders 404.html or 500.html by the error's text, and writes nothing.
- A code other than 200 redirects with that code to the prefixed target.
- Code 200 renders redirect.html with the request path, the target and the delay.

## Left out

- Tracing, logging, Prometheus and OpenTelemetry instruments are left out. This includes the reconcile-latency histogram and the current controller's active-Redirects gauge (internal/controller/redirect_controller.go:89-92). They have no effect on the outcome.
- Concurrency, caching, resource versions and update conflicts of the API server are left out. Each store call in `Cluster` is atomic and sees the latest state. The older controller's Redirect listing is the one exception, described next.
- The API server's schema validation and defaulting are not applied by `Store`. `V1alpha1.ValidSpec` and `V1alpha1.WithDefaults` state them separately.
- Go's `int64` and `int` widths are not modelled. Counts and codes are unbounded integers, so a count cannot overflow in the model.
- gin's `Redirect` panics for codes outside 300-308. That branch is not modelled, because the schema's code enum admits only 200 and 300-308 apart from 306.
- Template rendering, JSON encoding and the HTTP transport are not modelled. A response is its status, headers and a body value. Where the update handler puts the cause's `error` value under "cause" (pkg/api/handle_update_shortlink.go:67, 80), the model puts the cause's message text. gin would encode the error value's exported fields instead, for example `{}` for an `errors.New` error.
- Reading the request body and `json.Unmarshal` are given as a `BodyInput`. A read failure, a decode failure and a decoded spec are the three cases.
- The HTTP call to GitHub's user endpoint (`getGitHubUserInfo`, pkg/api/middleware/helper.go:44-84) is a `lookup` function supplied by the caller. Its wrapped error texts are not modelled, because the middleware only logs them.
- Middleware.ExtractBearerToken: `ToLowerAscii` folds ASCII letters only, while Go's `strings.ToLower` folds all of Unicode. The comparison with "bearer" comes out the same, because no non-ASCII letter lower-cases to b, e, a or r.
- A nil slice and an empty slice are the same sequence, so `GetIngressNames` of no Ingresses is the empty sequence, not nil.
- The `shortlink == nil` checks in the handlers are not modelled (for example pkg/api/handle_update_shortlink.go:100-104). A successful client read never returns nil.
- The humane error's `Error()` is modelled as its message text, and `humane.Wrap` as the same "context: cause" text as `errors.Wrap`.
- api/v1alpha1/redirect_types.go is not part of this model. The Redirect fields are those that the builder and the controllers read.
- pkg/model is not part of this model. The older scoped client's `model.NewNotAllowedError` is taken to be `NewNotAllowedError` of pkg/client/errors.go.
- The current controller calls package-local `UpdateRedirectIngress` and `GetLabelsForRedirect` (internal/controller/redirect_controller.go:129, 158). Their definitions are not part of this model. They are taken to be those of pkg/redirect/ingress.go.
- The older controller's `NewRedirectIngress` is not part of this model. It is taken to build the same Ingress as `UpdateRedirectIngress`.
- The Shortlink controllers (controllers/shortlink_controller.go, internal/controller/shortlink_controller.go), the router's wiring, server start and stop, and main.go are outside the modelled core.
- UserShortlinkClient.Create: the Go `Create` writes the caller as owner into the object the handler passed in. The model returns the created object instead of changing the caller's copy.
- ShortlinkClient.Update: the model's write leaves the stored status alone. The resource version and the `lastModified` timestamp set by the API server are not modelled.
- RedirectReconciler.ReconcileLegacy: the number of Redirects the older controller lists is a free parameter `listed`, not derived from the cluster's Redirects. The `RedirectClient` that lists them (its namespace and selection) is not part of this model. So the model allows a step that counts 0 Redirects while it fetches one, and it does not promise that the count matches the cluster.
- RedirectReconciler.ObserveRedirects: the counter is an unbounded integer, not an OpenTelemetry `int64` counter. The gauge is a plain number, not a `float64`.

## Findings

| source | as written | input that shows it | evidently intended | confidence | as-written member | corrected member |
|---|---|---|---|---|---|---|
| internal/controller/redirect_controller.go:116-143 (and controllers/redirect_controller.go:151-171) | The upsert's error is only logged. If the Ingress listing then succeeds, the status is built from the annotations of the nil Ingress the upsert returned. That is a nil pointer dereference. | A stored Redirect "docs" in namespace "web", whose Ingress read fails with "request timed out" (not NotFound), followed by a successful listing. | The step should not crash. It records the status from the Ingress it meant to write, or returns the upsert error. | not executed | RedirectReconciler.Reconcile, RedirectReconciler.ReconcilePanicExample | RedirectReconciler.ReconcileCorrected |
