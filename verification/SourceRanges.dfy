/** The source ranges of a service, as a set of normalised CIDRs. */
module SourceRanges {
  import opened Basics
  import opened Sequences
  import opened Resources

  const SOURCE_RANGES_KEY := "service.beta.kubernetes.io/load-balancer-source-ranges"

  /** White space as Unicode defines it, which is what Go trims. */
  predicate IsSpace(c: char) {
    || '\t' <= c <= '\r' || c == ' ' || c == '\U{85}' || c == '\U{A0}' || c == '\U{1680}'
    || '\U{2000}' <= c <= '\U{200A}' || c == '\U{2028}' || c == '\U{2029}' || c == '\U{202F}'
    || c == '\U{205F}' || c == '\U{3000}'
  }

  /** Nothing that a CIDR or a list of them is written with is trimmed, and every usual blank is. */
  lemma SpaceOrText(c: char)
    ensures c in " \t\n\r" + ['\U{B}', '\U{C}', '\U{85}', '\U{A0}', '\U{3000}'] ==> IsSpace(c)
    ensures '!' <= c <= '~' ==> !IsSpace(c)
  {
  }

  function TrimSpace(s: string): string {
    if s == [] then s
    else if IsSpace(s[0]) then TrimSpace(s[1..])
    else if IsSpace(s[|s| - 1]) then TrimSpace(s[..|s| - 1])
    else s
  }

  function Split(s: string, sep: char): (parts: seq<string>)
    ensures |parts| > 0
  {
    if s == [] then [""]
    else
      var rest := Split(s[1..], sep);
      if s[0] == sep then [""] + rest else [[s[0]] + rest[0]] + rest[1..]
  }

  ghost predicate Blank(s: string) {
    forall c :: c in s ==> IsSpace(c)
  }

  ghost predicate TrimmedAt(s: string, t: string, i: nat, j: nat) {
    && i <= j <= |s| && t == s[i..j]
    && (forall k :: 0 <= k < i ==> IsSpace(s[k]))
    && (forall k :: j <= k < |s| ==> IsSpace(s[k]))
  }

  /** `t` is `s` without the white space at its ends. */
  ghost predicate Trimmed(s: string, t: string) {
    (exists i: nat, j: nat :: TrimmedAt(s, t, i, j)) && (t != [] ==> !IsSpace(t[0]) && !IsSpace(t[|t| - 1]))
  }

  lemma {:induction false} TrimSpaceMeaning(s: string)
    ensures Trimmed(s, TrimSpace(s))
    ensures TrimSpace(s) == [] <==> Blank(s)
  {
    hide IsSpace, TrimmedAt;
    if s != [] && IsSpace(s[0]) {
      TrimSpaceMeaning(s[1..]);
      var i: nat, j: nat :| TrimmedAt(s[1..], TrimSpace(s), i, j);
      SpaceBefore(s, TrimSpace(s), i, j);
      assert s == [s[0]] + s[1..];
    } else if s != [] && IsSpace(s[|s| - 1]) {
      TrimSpaceMeaning(s[..|s| - 1]);
      var i: nat, j: nat :| TrimmedAt(s[..|s| - 1], TrimSpace(s), i, j);
      SpaceAfter(s, TrimSpace(s), i, j);
      assert s == s[..|s| - 1] + [s[|s| - 1]];
    } else {
      NoSpace(s);
      assert s != [] ==> s[0] in s;
    }
  }

  lemma SpaceBefore(s: string, t: string, i: nat, j: nat)
    requires s != [] && IsSpace(s[0]) && TrimmedAt(s[1..], t, i, j)
    ensures TrimmedAt(s, t, i + 1, j + 1)
  {
    hide IsSpace;
    assert s[i + 1..j + 1] == s[1..][i..j];
    assert forall k :: 0 < k < |s| ==> s[k] == s[1..][k - 1];
  }

  lemma SpaceAfter(s: string, t: string, i: nat, j: nat)
    requires s != [] && IsSpace(s[|s| - 1]) && TrimmedAt(s[..|s| - 1], t, i, j)
    ensures TrimmedAt(s, t, i, j)
  {
    hide IsSpace;
    assert s[i..j] == s[..|s| - 1][i..j];
  }

  lemma NoSpace(s: string)
    ensures TrimmedAt(s, s, 0, |s|)
  {
    assert s[0..|s|] == s;
  }

  function Join(parts: seq<string>, sep: char): string {
    if parts == [] then [] else if |parts| == 1 then parts[0] else parts[0] + [sep] + Join(parts[1..], sep)
  }

  lemma JoinLonger(c: char, parts: seq<string>, sep: char)
    requires parts != []
    ensures Join([[c] + parts[0]] + parts[1..], sep) == [c] + Join(parts, sep)
  {
    assert ([[c] + parts[0]] + parts[1..])[1..] == parts[1..];
    assert [c] + (parts[0] + [sep] + Join(parts[1..], sep)) == ([c] + parts[0]) + [sep] + Join(parts[1..], sep);
  }

  /** The parts are what stands between the separators. */
  lemma {:induction false} SplitMeaning(s: string, sep: char)
    ensures Join(Split(s, sep), sep) == s && forall p :: p in Split(s, sep) ==> sep !in p
  {
    if s != [] {
      var rest, all := Split(s[1..], sep), Split(s, sep);
      SplitMeaning(s[1..], sep);
      assert s == [s[0]] + s[1..];
      if s[0] == sep {
        assert all[1..] == rest;
      } else {
        JoinLonger(s[0], rest, sep);
        assert rest[0] in rest;
        assert forall p :: p in all ==> p == all[0] || p in rest;
      }
    }
  }

  /** The texts to parse: the spec field, else the annotation, else allow-all. */
  function RangeSpecs(service: Service): seq<string> {
    if |service.sourceRanges| > 0 then service.sourceRanges
    else
      var val := if SOURCE_RANGES_KEY in service.annotations then service.annotations[SOURCE_RANGES_KEY] else "";
      var trimmed := TrimSpace(val);
      Split(if trimmed == "" then DEFAULT_SOURCE_RANGES else trimmed, ',')
  }

  /** The field wins; without it the trimmed annotation is cut at its commas, and without that everything is allowed. */
  lemma RangeSpecsMeaning(service: Service)
    ensures service.sourceRanges != [] ==> RangeSpecs(service) == service.sourceRanges
    ensures service.sourceRanges == [] &&
            (SOURCE_RANGES_KEY !in service.annotations || Blank(service.annotations[SOURCE_RANGES_KEY])) ==>
              RangeSpecs(service) == ["0.0.0.0/0"]
    ensures service.sourceRanges == [] && SOURCE_RANGES_KEY in service.annotations &&
            !Blank(service.annotations[SOURCE_RANGES_KEY]) ==>
              && Trimmed(service.annotations[SOURCE_RANGES_KEY], Join(RangeSpecs(service), ','))
              && forall p :: p in RangeSpecs(service) ==> ',' !in p
  {
    if service.sourceRanges == [] {
      var val := if SOURCE_RANGES_KEY in service.annotations then service.annotations[SOURCE_RANGES_KEY] else "";
      TrimSpaceMeaning(val);
      SplitMeaning(TrimSpace(val), ',');
      NoComma(DEFAULT_SOURCE_RANGES);
    }
  }

  lemma {:induction false} NoComma(s: string)
    requires ',' !in s
    ensures Split(s, ',') == [s]
  {
    if s != [] {
      NoComma(s[1..]);
      assert s == [s[0]] + s[1..];
    }
  }

  /** The canonical text of a network, for a text that parses. */
  function Canonical(parse: string -> Option<string>, s: string): string {
    match parse(TrimSpace(s))
    case Some(network) => network
    case None => ""
  }

  /** What parsing gives: every text must parse, and equal networks are one. */
  ghost predicate Parses(specs: seq<string>, parse: string -> Option<string>, r: Result<set<string>>) {
    if forall s :: s in specs ==> parse(TrimSpace(s)).Some?
    then r.Success? && r.value == set s | s in specs :: Canonical(parse, s)
    else r.Fail?
  }

  /** A network is among the ranges exactly when one of the texts, trimmed, parses to it. */
  lemma ParsesMeaning(specs: seq<string>, parse: string -> Option<string>, r: Result<set<string>>)
    requires Parses(specs, parse, r)
    ensures r.Success? <==> forall s :: s in specs ==> parse(TrimSpace(s)).Some?
    ensures r.Success? ==> forall n :: n in r.value <==> exists s :: s in specs && parse(TrimSpace(s)) == Some(n)
  {
    if r.Success? {
      forall s | s in specs ensures parse(TrimSpace(s)) == Some(Canonical(parse, s)) {}
    }
  }

  /** `parse` stands for net.ParseCIDR followed by the network's canonical text. */
  method ParseIPNets(specs: seq<string>, parse: string -> Option<string>) returns (r: Result<set<string>>)
    ensures Parses(specs, parse, r)
  {
    var ipnetset: set<string> := {};
    for i := 0 to |specs|
      invariant forall s :: s in specs[..i] ==> parse(TrimSpace(s)).Some?
      invariant ipnetset == set s | s in specs[..i] :: Canonical(parse, s)
    {
      var parsed := parse(TrimSpace(specs[i]));
      assert specs[..i + 1] == specs[..i] + [specs[i]];
      if parsed.None? {
        return Fail(ErrInvalid);
      }
      assert (set s | s in specs[..i + 1] :: Canonical(parse, s))
          == (set s | s in specs[..i] :: Canonical(parse, s)) + {Canonical(parse, specs[i])};
      ipnetset := ipnetset + {parsed.value};
    }
    assert specs[..|specs|] == specs;
    return Success(ipnetset);
  }

  /** The elements in an undefined order. */
  method StringSlice(ipnets: set<string>) returns (a: seq<string>)
    ensures NoDup(a) && ToSet(a) == ipnets
  {
    a := [];
    var rest := ipnets;
    while rest != {}
      invariant rest <= ipnets && NoDup(a) && ToSet(a) == ipnets - rest
      decreases rest
    {
      var k :| k in rest;
      assert k !in a by { assert k !in ToSet(a); }
      assert ToSet(a + [k]) == ToSet(a) + {k};
      a := a + [k];
      rest := rest - {k};
    }
  }

  method IsOnlyAllowAll(ipnets: set<string>) returns (r: bool)
    ensures r <==> ipnets == {DEFAULT_SOURCE_RANGES}
  {
    var s := StringSlice(ipnets);
    CardToSet(s);
    if |s| != 1 {
      return false;
    }
    assert ToSet(s) == {s[0]};
    return s[0] == DEFAULT_SOURCE_RANGES;
  }

  method GetLoadBalancerSourceRanges(service: Service, parse: string -> Option<string>)
    returns (r: Result<set<string>>)
    ensures Parses(RangeSpecs(service), parse, r)
  {
    r := ParseIPNets(RangeSpecs(service), parse);
  }
}
