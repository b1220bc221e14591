/** The name under which a service's load balancers are kept. */
module Names {

  const NAME_LIMIT: nat := 128

  datatype Identity = Identity(cluster: string, namespace: string, name: string)

  function FullName(s: Identity): string {
    "kube_" + s.cluster + "_" + s.namespace + "_" + s.name
  }

  /** The parts of the name: a fixed prefix, then cluster, namespace and service, with underscores between. */
  lemma FullNameParts(s: Identity)
    ensures var f, n := FullName(s), 5 + |s.cluster|;
            && |f| == n + |s.namespace| + |s.name| + 2
            && f[..5] == "kube_" && f[5..n] == s.cluster && f[n] == '_'
            && f[n + 1..n + 1 + |s.namespace|] == s.namespace && f[n + 1 + |s.namespace|] == '_'
            && f[n + 2 + |s.namespace|..] == s.name
  {
  }

  function CutString(original: string): string {
    if |original| > NAME_LIMIT then original[..NAME_LIMIT] else original
  }

  function LoadBalancerName(s: Identity): string {
    CutString(FullName(s))
  }

  /** Namespaces and service names are DNS labels, which have no underscore. */
  predicate DnsLabels(s: Identity) {
    '_' !in s.namespace && '_' !in s.name
  }

  lemma LastUnderscore(a: string, b: string)
    requires '_' !in b
    ensures var s := a + "_" + b;
            s[|a|] == '_' && forall i :: |a| < i < |s| ==> s[i] != '_'
  {
    var s := a + "_" + b;
    forall i | |a| < i < |s| ensures s[i] != '_' {
      assert s[i] == b[i - |a| - 1];
    }
  }

  lemma SplitAtLast(a: string, b: string, c: string, d: string)
    requires a + "_" + b == c + "_" + d
    requires '_' !in b && '_' !in d
    ensures a == c && b == d
  {
    LastUnderscore(a, b);
    LastUnderscore(c, d);
    var s := a + "_" + b;
    assert |a| == |c|;
    assert s[..|a|] == a && s[..|c|] == c;
    assert s[|a| + 1..] == b && s[|c| + 1..] == d;
  }

  lemma FullNameInjective(s: Identity, t: Identity)
    requires DnsLabels(s) && DnsLabels(t)
    ensures FullName(s) == FullName(t) <==> s == t
  {
    if FullName(s) == FullName(t) {
      var p, q := "kube_" + s.cluster, "kube_" + t.cluster;
      SplitAtLast(p + "_" + s.namespace, s.name, q + "_" + t.namespace, t.name);
      SplitAtLast(p, s.namespace, q, t.namespace);
      assert p[5..] == s.cluster && q[5..] == t.cluster;
    }
  }

  /** Two services share a load balancer name only when both names fill the limit and agree up to it. */
  lemma SharedNameExactly(s: Identity, t: Identity)
    requires DnsLabels(s) && DnsLabels(t)
    ensures LoadBalancerName(s) == LoadBalancerName(t) <==>
              s == t ||
              (|FullName(s)| >= NAME_LIMIT && |FullName(t)| >= NAME_LIMIT &&
               FullName(s)[..NAME_LIMIT] == FullName(t)[..NAME_LIMIT])
  {
    FullNameInjective(s, t);
    var a, b := FullName(s), FullName(t);
    assert |a| == NAME_LIMIT ==> a[..NAME_LIMIT] == a;
    assert |b| == NAME_LIMIT ==> b[..NAME_LIMIT] == b;
  }

  /** Within the limit the name identifies the service. */
  lemma NameInjective(s: Identity, t: Identity)
    requires DnsLabels(s) && DnsLabels(t)
    requires |FullName(s)| <= NAME_LIMIT && |FullName(t)| <= NAME_LIMIT
    ensures LoadBalancerName(s) == LoadBalancerName(t) <==> s == t
  {
    FullNameInjective(s, t);
  }

  /** Long names are cut: services that differ only beyond the limit share a name. */
  lemma LongNamesCollide(cluster: string, namespace: string, name: string, suffix: string)
    requires |FullName(Identity(cluster, namespace, name))| >= NAME_LIMIT && suffix != ""
    ensures Identity(cluster, namespace, name) != Identity(cluster, namespace, name + suffix)
    ensures LoadBalancerName(Identity(cluster, namespace, name)) ==
            LoadBalancerName(Identity(cluster, namespace, name + suffix))
  {
  }
}
