/**
 The custom resources of the urlshortener.cedi.dev/v1alpha1 API group:
 Shortlink (spec, status, the ownership predicate, and the schema's
 validation and defaulting markers) and Redirect (the fields the Ingress
 builder and the reconciler read and write). The source spells the type both
 `Shortlink` and `ShortLink`; both are this one type.
 */
module V1alpha1 {

  datatype ShortlinkSpec = ShortlinkSpec(
    owner: string,
    coOwners: seq<string>,
    target: string,
    redirectAfter: int,
    code: int)

  datatype ShortlinkStatus = ShortlinkStatus(count: int, lastModified: string, changedBy: string)

  datatype Shortlink = Shortlink(name: string, namespace: string, spec: ShortlinkSpec, status: ShortlinkStatus) {

    /** `IsOwnedBy`: the caller is the owner or one of the co-owners. */
    predicate IsOwnedBy(username: string) {
      spec.owner == username || SliceContains(spec.coOwners, username)
    }
  }

  /** `slices.Contains`: a front-to-back scan for `x`. */
  function SliceContains(xs: seq<string>, x: string): (found: bool)
    ensures found <==> x in xs
  {
    if |xs| == 0 then false else xs[0] == x || SliceContains(xs[1..], x)
  }

  /** Ownership is exactly membership in the owner and co-owner set. */
  lemma OwnedIffOwnerOrCoOwner(sl: Shortlink, username: string)
    ensures sl.IsOwnedBy(username) <==> username in {sl.spec.owner} + set u | u in sl.spec.coOwners
  {
  }

  /** Adding a co-owner grants it ownership and revokes nobody's. */
  lemma AddingCoOwnerOnlyGrants(sl: Shortlink, coOwner: string, username: string)
    ensures var sl' := sl.(spec := sl.spec.(coOwners := sl.spec.coOwners + [coOwner]));
      sl'.IsOwnedBy(coOwner) && (sl.IsOwnedBy(username) ==> sl'.IsOwnedBy(username))
  {
  }

  /** The status codes the schema's enum admits; 306 is not among them. */
  const ValidCodes: set<int> := {200, 300, 301, 302, 303, 304, 305, 307, 308}

  const DefaultCode: int := 307
  const DefaultRedirectAfter: int := 0
  const MaxRedirectAfter: int := 99

  /** What the schema accepts for a spec: a non-empty target, a delay of 0 to 99 seconds, an enumerated code. */
  predicate ValidSpec(spec: ShortlinkSpec) {
    |spec.target| >= 1 && DefaultRedirectAfter <= spec.redirectAfter <= MaxRedirectAfter && spec.code in ValidCodes
  }

  /** What the schema accepts for a status: a non-negative count. */
  predicate ValidStatus(status: ShortlinkStatus) {
    status.count >= 0
  }

  /**
   The schema's defaulting of a spec as Go sends it: `after` and `code` are
   `omitempty`, so a zero value travels as an absent field and is defaulted.
   */
  function WithDefaults(spec: ShortlinkSpec): (d: ShortlinkSpec)
    ensures d.code != 0 && d.redirectAfter == spec.redirectAfter
    ensures spec.code != 0 ==> d == spec
    ensures spec.code == 0 ==> d == spec.(code := DefaultCode)
  {
    if spec.code == 0 then spec.(code := DefaultCode) else spec
  }

  /** A spec that only left out the code is valid once defaulted. */
  lemma DefaultedSpecIsValid(spec: ShortlinkSpec)
    requires |spec.target| >= 1 && 0 <= spec.redirectAfter <= 99
    requires spec.code == 0 || spec.code in ValidCodes
    ensures ValidSpec(WithDefaults(spec))
    ensures spec.code == 0 ==> WithDefaults(spec).code == 307
  {
  }

  /** The status of a fresh Shortlink: a zero count. */
  const NewStatus: ShortlinkStatus := ShortlinkStatus(0, "", "")

  /** `ShortLinkAPI`: the projection the HTTP API returns. */
  datatype ShortlinkView = ShortlinkView(name: string, spec: ShortlinkSpec, status: ShortlinkStatus)

  function View(sl: Shortlink): ShortlinkView {
    ShortlinkView(sl.name, sl.spec, sl.status)
  }

  datatype RedirectTLS = RedirectTLS(enable: bool, annotations: map<string, string>)

  datatype RedirectSpec = RedirectSpec(
    source: string,
    target: string,
    code: int,
    ingressClassName: string,
    tls: RedirectTLS)

  datatype RedirectStatus = RedirectStatus(ingressName: seq<string>, target: string)

  datatype Redirect = Redirect(name: string, namespace: string, spec: RedirectSpec, status: RedirectStatus)
}
