/** How a server pages through a fixed collection, and how much of it a marker loop collects. */
module Paging {
  import opened Basics
  import opened Resources
  import opened Text

  /** Per request the server chooses to repeat the marker's item or not, and a page size. */
  datatype PageChoice = PageChoice(inclusive: bool, size: nat)

  /** A page brings at least one item beyond the marker while items remain. */
  predicate Healthy(c: PageChoice) {
    c.size >= if c.inclusive then 2 else 1
  }

  ghost predicate DistinctIds(all: seq<LoadBalancer>) {
    forall i, j :: 0 <= i < j < |all| ==> all[i].id != all[j].id
  }

  /** The position of the first item from `i` on whose printed ID is the marker, else the length. */
  function Find(all: seq<LoadBalancer>, marker: string, i: nat): nat
    requires i <= |all|
    ensures i <= Find(all, marker, i) <= |all|
    decreases |all| - i
  {
    if i == |all| || FormatUint(all[i].id) == marker then i else Find(all, marker, i + 1)
  }

  /** The server's answer to one listing request. */
  function PageAfter(all: seq<LoadBalancer>, marker: string, c: PageChoice): seq<LoadBalancer> {
    if marker == "" then all[..Min(c.size, |all|)]
    else
      var i := Find(all, marker, 0);
      if i == |all| then []
      else
        var start := if c.inclusive then i else i + 1;
        all[start..Min(start + c.size, |all|)]
  }

  /** The marker of a client that has collected `pos` items. */
  function Marker(all: seq<LoadBalancer>, pos: nat): string
    requires pos <= |all|
  {
    if pos == 0 then "" else FormatUint(all[pos - 1].id)
  }

  function PageStart(pos: nat, c: PageChoice): nat {
    if pos > 0 && c.inclusive then pos - 1 else pos
  }

  function PageEnd(len: nat, pos: nat, c: PageChoice): nat {
    Min(PageStart(pos, c) + c.size, len)
  }

  /** How many items the loop has when it stops, being at `pos` before request `n`. */
  function FinalPos(len: nat, plan: nat -> PageChoice, n: nat, pos: nat): (r: nat)
    requires pos <= len
    ensures pos <= r <= len
    decreases len - pos
  {
    var end := PageEnd(len, pos, plan(n));
    if end <= pos then pos else FinalPos(len, plan, n + 1, end)
  }

  lemma {:induction false} FindsMarker(all: seq<LoadBalancer>, i: nat, k: nat)
    requires DistinctIds(all) && i <= k < |all|
    ensures Find(all, FormatUint(all[k].id), i) == k
    decreases k - i
  {
    FormatUintInjective(all[i].id, all[k].id);
    if i < k {
      FindsMarker(all, i + 1, k);
    }
  }

  /** The marker reaches its own item only, because printing IDs is injective. */
  lemma PageIsRun(all: seq<LoadBalancer>, pos: nat, c: PageChoice)
    requires DistinctIds(all) && pos <= |all|
    ensures var end := PageEnd(|all|, pos, c);
            PageAfter(all, Marker(all, pos), c) == if end <= PageStart(pos, c) then [] else all[PageStart(pos, c)..end]
  {
    if pos > 0 {
      FormatUintNonempty(all[pos - 1].id);
      FindsMarker(all, 0, pos - 1);
    }
  }

  /** Against a healthy server the loop ends with the whole collection. */
  lemma {:induction false} HealthyCollectsAll(len: nat, plan: nat -> PageChoice, n: nat, pos: nat)
    requires pos <= len
    requires forall k :: n <= k ==> Healthy(plan(k))
    ensures FinalPos(len, plan, n, pos) == len
    decreases len - pos
  {
    assert Healthy(plan(n));
    var end := PageEnd(len, pos, plan(n));
    if pos < end {
      HealthyCollectsAll(len, plan, n + 1, end);
    }
  }

  /** For a server with one fixed page shape: exactly when the loop collects everything. */
  lemma FixedPagesExactly(len: nat, plan: nat -> PageChoice, c: PageChoice, n: nat)
    requires forall k :: n <= k ==> plan(k) == c
    ensures FinalPos(len, plan, n, 0) == len <==>
              len == 0 || (c.size >= 1 && (!c.inclusive || c.size >= 2 || len == 1))
  {
    assert plan(n) == plan(n + 1) == c;
    if Healthy(c) {
      HealthyCollectsAll(len, plan, n, 0);
    } else if len > 0 && c.size == 1 {
      assert PageEnd(len, 0, c) == 1 && PageEnd(len, 1, c) == 1;
      assert FinalPos(len, plan, n, 0) == FinalPos(len, plan, n + 1, 1) == 1;
    } else {
      assert PageEnd(len, 0, c) == 0;
    }
  }
}
