/**
 The derived-Ingress builder of package `redirect`: from a Redirect it builds
 the nginx Ingress that performs the redirect, overwriting the metadata and
 spec of whatever Ingress it is handed. Only the Ingress fields the builder or
 the reconciler touch are modelled.
 */
module Ingresses {
  import opened Wrappers
  import opened Text
  import opened V1alpha1

  datatype PathType = Exact | Prefix | ImplementationSpecific

  datatype ServiceBackend = ServiceBackend(name: string, port: int)

  datatype IngressPath = IngressPath(path: string, pathType: PathType, backend: ServiceBackend)

  datatype IngressRule = IngressRule(host: string, paths: seq<IngressPath>)

  datatype IngressTLS = IngressTLS(hosts: seq<string>, secretName: string)

  /** An owner reference; `controller` marks the managing controller's reference. */
  datatype OwnerReference = OwnerReference(kind: string, name: string, controller: bool)

  datatype ObjectMeta = ObjectMeta(
    name: string,
    namespace: string,
    labels: map<string, string>,
    annotations: map<string, string>,
    ownerReferences: seq<OwnerReference>)

  datatype IngressSpec = IngressSpec(ingressClassName: Option<string>, rules: seq<IngressRule>, tls: seq<IngressTLS>)

  /** The load-balancer addresses the ingress controller reports. */
  datatype IngressStatus = IngressStatus(loadBalancer: seq<string>)

  datatype Ingress = Ingress(meta: ObjectMeta, spec: IngressSpec, status: IngressStatus)

  /** The zero value `networkingv1.Ingress{}`. */
  const EmptyIngress: Ingress := Ingress(ObjectMeta("", "", map[], map[], []), IngressSpec(None, [], []), IngressStatus([]))

  const RewriteTargetKey: string := "nginx.ingress.kubernetes.io/rewrite-target"
  const PermanentRedirectKey: string := "nginx.ingress.kubernetes.io/permanent-redirect"
  const PermanentRedirectCodeKey: string := "nginx.ingress.kubernetes.io/permanent-redirect-code"
  const BackendService: ServiceBackend := ServiceBackend("http-svc", 80)
  const SecretSuffix: string := "-redirect-secret"
  const RequestUriVariable: string := "$request_uri"
  const HttpScheme: string := "http://"

  /** `GetLabelsForRedirect`: the labels that tie an Ingress to the Redirect called `name`. */
  function GetLabelsForRedirect(name: string): (labels: map<string, string>)
    ensures labels.Keys == {"app", "redirect"}
    ensures labels["app"] == "urlshortener" && labels["redirect"] == name
  {
    map["app" := "urlshortener", "redirect" := name]
  }

  /** A label selector: every selector label is present with the same value. */
  predicate MatchesLabels(labels: map<string, string>, selector: map<string, string>) {
    forall k | k in selector :: k in labels && labels[k] == selector[k]
  }

  /** The labels select one Redirect only: no Ingress carries the labels of two differently named Redirects. */
  lemma LabelsSelectOneRedirect(labels: map<string, string>, a: string, b: string)
    requires MatchesLabels(labels, GetLabelsForRedirect(a))
    requires MatchesLabels(labels, GetLabelsForRedirect(b))
    ensures a == b
  {
    assert "redirect" in GetLabelsForRedirect(a);
    assert "redirect" in GetLabelsForRedirect(b);
  }

  /**
   Whether `^(.+)(://).*$` matches: in Go's regular expressions `.` does not
   match a newline and `$` is the end of the text, so the text must be free of
   newlines and hold "://" after at least one character.
   */
  predicate HasProtocol(target: string) {
    '\n' !in target && |target| > 0 && Contains(target[1..], "://")
  }

  /** `normalizeUrl`: a target without a protocol is sent to plain HTTP, keeping the request path. */
  function NormalizeUrl(target: string): (url: string)
    ensures HasProtocol(target) ==> url == target
    ensures !HasProtocol(target) ==> url == HttpScheme + target + RequestUriVariable
  {
    if HasProtocol(target) then target else HttpScheme + target + RequestUriVariable
  }

  /** Normalising a newline-free target yields a URL with a protocol, so normalising twice changes nothing. */
  lemma NormalizeUrlIdempotent(target: string)
    requires '\n' !in target
    ensures HasProtocol(NormalizeUrl(target))
    ensures NormalizeUrl(NormalizeUrl(target)) == NormalizeUrl(target)
  {
    if !HasProtocol(target) {
      var url := HttpScheme + target + RequestUriVariable;
      assert url[1..] == "ttp" + "://" + (target + RequestUriVariable);
      ContainsInMiddle("ttp", "://", target + RequestUriVariable);
      assert '\n' !in url by {
        forall i | 0 <= i < |url| ensures url[i] != '\n' {
          if i >= |HttpScheme| && i < |HttpScheme| + |target| {
            assert url[i] == target[i - |HttpScheme|];
          }
        }
      }
    }
  }

  /** A host without a colon has no protocol and is sent to plain HTTP with the request path. */
  lemma NormalizeUrlBareHost(host: string)
    requires ':' !in host
    ensures NormalizeUrl(host) == "http://" + host + "$request_uri"
  {
    if |host| > 0 {
      assert ':' !in host[1..] by {
        forall i | 0 <= i < |host[1..]| ensures host[1..][i] != ':' {
          assert host[1..][i] == host[i + 1];
        }
      }
      AbsentCharExcludes(host[1..], "://", ':');
    }
  }

  /** A newline-free target with a non-empty scheme before "://" is kept as it is. */
  lemma NormalizeUrlExplicitScheme(scheme: string, rest: string)
    requires |scheme| > 0 && '\n' !in scheme + "://" + rest
    ensures NormalizeUrl(scheme + "://" + rest) == scheme + "://" + rest
  {
    var url := scheme + "://" + rest;
    assert url[1..] == scheme[1..] + "://" + rest;
    ContainsInMiddle(scheme[1..], "://", rest);
  }

  /** "://" with nothing before it is not a protocol: the target is prefixed all the same. */
  lemma NormalizeUrlEmptyScheme(rest: string)
    requires ':' !in rest
    ensures NormalizeUrl("://" + rest) == "http://" + "://" + rest + "$request_uri"
  {
    var url := "://" + rest;
    assert url[1..] == "//" + rest;
    assert ':' !in url[1..] by {
      forall i | 0 <= i < |url[1..]| ensures url[1..][i] != ':' {
        if i >= 2 {
          assert url[1..][i] == rest[i - 2];
        }
      }
    }
    AbsentCharExcludes(url[1..], "://", ':');
  }

  /** The TLS secret name: the source host with every '.' replaced by '-', then "-redirect-secret". */
  function TlsSecretName(source: string): (name: string)
    ensures |name| == |source| + |SecretSuffix|
    ensures name[|source|..] == SecretSuffix
    ensures forall i | 0 <= i < |source| :: name[i] == (if source[i] == '.' then '-' else source[i])
    ensures '.' !in name
  {
    ReplaceChar(source, '.', '-') + SecretSuffix
  }

  /** A host without dots keeps its name, followed by the suffix. */
  lemma TlsSecretNameOfDotFreeHost(host: string)
    requires '.' !in host
    ensures TlsSecretName(host) == host + SecretSuffix
  {
    var n := TlsSecretName(host);
    assert n == n[..|host|] + n[|host|..];
    assert n[..|host|] == host by {
      forall i | 0 <= i < |host| ensures n[i] == host[i] {
        assert host[i] in host;
      }
    }
  }

  /** Each dot becomes a dash: a dot after a dot-free first part turns into a dash after that part. */
  lemma TlsSecretNameReplacesDot(head: string, rest: string)
    requires '.' !in head
    ensures TlsSecretName(head + "." + rest) == head + "-" + TlsSecretName(rest)
  {
    var x := head + "." + rest;
    var n := TlsSecretName(x);
    var m := head + "-" + TlsSecretName(rest);
    forall i | 0 <= i < |n| ensures n[i] == m[i] {
      if i < |head| {
        assert head[i] in head;
        assert x[i] == head[i];
      } else if i == |head| {
        assert x[i] == '.';
      } else if i < |x| {
        assert x[i] == rest[i - |head| - 1];
      } else {
        assert n[i] == n[|x|..][i - |x|];
        assert TlsSecretName(rest)[i - |head| - 1] == TlsSecretName(rest)[|rest|..][i - |x|];
      }
    }
  }

  /** The three nginx annotations every derived Ingress carries. */
  function BaseAnnotations(r: Redirect): map<string, string> {
    map[RewriteTargetKey := "/",
        PermanentRedirectKey := NormalizeUrl(r.spec.target),
        PermanentRedirectCodeKey := IntToDecimal(r.spec.code)]
  }

  /**
   `UpdateRedirectIngress`. A missing Ingress (`None`) starts from the zero
   value. `controllerRefSet` is the outcome of `ctrl.SetControllerReference`,
   which fails only when the scheme does not know the Redirect type; on failure
   the builder carries on without the owner reference.
   */
  function UpdateRedirectIngress(ing: Option<Ingress>, r: Redirect, controllerRefSet: bool): (out: Ingress)
    ensures out.meta.name == r.name && out.meta.namespace == r.namespace
    ensures out.meta.labels == GetLabelsForRedirect(r.name)
    ensures out.meta.ownerReferences == if controllerRefSet then [OwnerReference("Redirect", r.name, true)] else []
    // the three base annotations are always present
    ensures {RewriteTargetKey, PermanentRedirectKey, PermanentRedirectCodeKey} <= out.meta.annotations.Keys
    // TLS annotations are applied last and win; base annotations hold wherever TLS does not override them
    ensures r.spec.tls.enable ==> out.meta.annotations.Keys == BaseAnnotations(r).Keys + r.spec.tls.annotations.Keys
    ensures r.spec.tls.enable ==> forall k | k in r.spec.tls.annotations :: out.meta.annotations[k] == r.spec.tls.annotations[k]
    ensures forall k | k in BaseAnnotations(r) && !(r.spec.tls.enable && k in r.spec.tls.annotations) ::
      out.meta.annotations[k] == BaseAnnotations(r)[k]
    ensures !r.spec.tls.enable ==> out.meta.annotations.Keys == {RewriteTargetKey, PermanentRedirectKey, PermanentRedirectCodeKey}
    // the code annotation reads back as the Redirect's code
    ensures !(r.spec.tls.enable && PermanentRedirectCodeKey in r.spec.tls.annotations) ==>
      ParseDecimal(out.meta.annotations[PermanentRedirectCodeKey]) == Some(r.spec.code)
    // one host rule, one prefix path to the redirect backend
    ensures out.spec.ingressClassName == Some(r.spec.ingressClassName)
    ensures |out.spec.rules| == 1 && out.spec.rules[0].host == r.spec.source
    ensures out.spec.rules[0].paths == [IngressPath("/", Prefix, BackendService)]
    // TLS entry iff TLS is enabled
    ensures |out.spec.tls| == (if r.spec.tls.enable then 1 else 0)
    ensures r.spec.tls.enable ==> out.spec.tls[0] == IngressTLS([r.spec.source], TlsSecretName(r.spec.source))
    // the status is never touched
    ensures out.status == (if ing.Some? then ing.value.status else EmptyIngress.status)
  {
    var base := if ing.Some? then ing.value else EmptyIngress;
    var annotations := if r.spec.tls.enable then BaseAnnotations(r) + r.spec.tls.annotations else BaseAnnotations(r);
    var refs := if controllerRefSet then [OwnerReference("Redirect", r.name, true)] else [];
    var rule := IngressRule(r.spec.source, [IngressPath("/", Prefix, BackendService)]);
    var tls := if r.spec.tls.enable then [IngressTLS([r.spec.source], TlsSecretName(r.spec.source))] else [];
    DecimalRoundTrip(r.spec.code);
    Ingress(
      ObjectMeta(r.name, r.namespace, GetLabelsForRedirect(r.name), annotations, refs),
      IngressSpec(Some(r.spec.ingressClassName), [rule], tls),
      base.status)
  }

  /** The builder ignores the metadata and spec of the Ingress it is handed; a missing Ingress counts as the zero value. */
  lemma BuilderIgnoresExistingObject(a: Ingress, b: Ingress, r: Redirect, controllerRefSet: bool)
    ensures UpdateRedirectIngress(Some(a), r, controllerRefSet).meta == UpdateRedirectIngress(Some(b), r, controllerRefSet).meta
    ensures UpdateRedirectIngress(Some(a), r, controllerRefSet).spec == UpdateRedirectIngress(Some(b), r, controllerRefSet).spec
    ensures UpdateRedirectIngress(None, r, controllerRefSet) == UpdateRedirectIngress(Some(EmptyIngress), r, controllerRefSet)
  {
  }

  /** Rebuilding a built Ingress changes nothing. */
  lemma BuilderIdempotent(ing: Option<Ingress>, r: Redirect, controllerRefSet: bool)
    ensures var once := UpdateRedirectIngress(ing, r, controllerRefSet);
      UpdateRedirectIngress(Some(once), r, controllerRefSet) == once
  {
  }

  /** Only the Redirect's name, namespace and spec matter; its status does not. */
  lemma BuilderIgnoresRedirectStatus(ing: Option<Ingress>, r: Redirect, status: RedirectStatus, controllerRefSet: bool)
    ensures UpdateRedirectIngress(ing, r.(status := status), controllerRefSet) == UpdateRedirectIngress(ing, r, controllerRefSet)
  {
  }

  /** `GetIngressNames`: the names of the Ingresses, in order. */
  function GetIngressNames(ingresses: seq<Ingress>): (names: seq<string>)
    ensures |names| == |ingresses|
    ensures forall i | 0 <= i < |ingresses| :: names[i] == ingresses[i].meta.name
  {
    if |ingresses| == 0 then [] else [ingresses[0].meta.name] + GetIngressNames(ingresses[1..])
  }

  /** The names of a concatenation are the concatenated names. */
  lemma {:induction false} GetIngressNamesConcat(a: seq<Ingress>, b: seq<Ingress>)
    ensures GetIngressNames(a + b) == GetIngressNames(a) + GetIngressNames(b)
  {
    var n := GetIngressNames(a + b);
    var m := GetIngressNames(a) + GetIngressNames(b);
    assert |n| == |m|;
    forall i | 0 <= i < |n| ensures n[i] == m[i] {
      if i < |a| {
        assert (a + b)[i] == a[i];
      } else {
        assert (a + b)[i] == b[i - |a|];
      }
    }
  }
}
