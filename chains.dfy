/** Chains of nodes along one kind of link. A successor table gives, for
    each node handle, the node its first link of that kind leads to (what
    prim's Find returns); following it from a node gives that node's chain.
    The engine's loops walk such chains until the link runs out, so each
    of them terminates exactly when the chain ends; EndsWithin states that
    with an explicit bound, and a chain through n nodes that ends at all
    ends within n steps. */
module Chains {
  import opened Wrappers

  type Successors = seq<Option<nat>>

  /** Every successor is itself a node of the table. */
  predicate Closed(succ: Successors) {
    forall h :: 0 <= h < |succ| && succ[h].Some? ==> succ[h].value < |succ|
  }

  /** Following the links from h reaches a node without a successor in at
      most fuel nodes. */
  predicate EndsWithin(succ: Successors, h: nat, fuel: nat)
    decreases fuel
  {
    h < |succ| && fuel > 0 && (succ[h].None? || EndsWithin(succ, succ[h].value, fuel - 1))
  }

  /** The chain from h ends (it does not run into a cycle). */
  predicate Ends(succ: Successors, h: nat) {
    EndsWithin(succ, h, |succ|)
  }

  function ChainWithin(succ: Successors, h: nat, fuel: nat): (c: seq<nat>)
    requires EndsWithin(succ, h, fuel)
    ensures 1 <= |c| <= fuel && c[0] == h
    ensures forall i :: 0 <= i < |c| ==> c[i] < |succ|
    decreases fuel
  {
    if succ[h].None? then [h] else [h] + ChainWithin(succ, succ[h].value, fuel - 1)
  }

  /** The nodes met following the links from h, h first. */
  function Chain(succ: Successors, h: nat): (c: seq<nat>)
    requires Ends(succ, h)
    ensures |c| >= 1 && c[0] == h
    ensures forall i :: 0 <= i < |c| ==> c[i] < |succ|
  {
    ChainWithin(succ, h, |succ|)
  }

  lemma {:induction false} EndsWithinMore(succ: Successors, h: nat, fuel: nat, more: nat)
    requires EndsWithin(succ, h, fuel) && fuel <= more
    ensures EndsWithin(succ, h, more)
    ensures ChainWithin(succ, h, more) == ChainWithin(succ, h, fuel)
    decreases fuel
  {
    if succ[h].Some? {
      EndsWithinMore(succ, succ[h].value, fuel - 1, more - 1);
    }
  }

  /** Stepping along a link: the rest of a chain is the successor's chain. */
  lemma ChainStep(succ: Successors, h: nat)
    requires Ends(succ, h) && succ[h].Some?
    ensures Ends(succ, succ[h].value)
    ensures Chain(succ, h) == [h] + Chain(succ, succ[h].value)
  {
    EndsWithinMore(succ, succ[h].value, |succ| - 1, |succ|);
  }

  /** A node without a successor is a chain of its own. */
  lemma ChainEnd(succ: Successors, h: nat)
    requires h < |succ| && succ[h].None?
    ensures Ends(succ, h) && Chain(succ, h) == [h]
  {
  }

  /** Consecutive chain members are linked, the last one has no successor,
      and every member is a node of the table. */
  lemma {:induction false} ChainLinks(succ: Successors, h: nat, fuel: nat)
    requires EndsWithin(succ, h, fuel)
    ensures var c := ChainWithin(succ, h, fuel);
      && (forall i :: 0 <= i < |c| ==> c[i] < |succ|)
      && (forall i :: 0 <= i < |c| - 1 ==> succ[c[i]] == Some(c[i + 1]))
      && succ[c[|c| - 1]].None?
    decreases fuel
  {
    if succ[h].Some? {
      ChainLinks(succ, succ[h].value, fuel - 1);
    }
  }

  lemma ChainShape(succ: Successors, h: nat)
    requires Ends(succ, h)
    ensures var c := Chain(succ, h);
      && (forall i :: 0 <= i < |c| ==> c[i] < |succ|)
      && (forall i :: 0 <= i < |c| - 1 ==> succ[c[i]] == Some(c[i + 1]))
      && succ[c[|c| - 1]].None?
  {
    ChainLinks(succ, h, |succ|);
  }

  /** The successor of the i-th member of a chain: the next member, or
      none after the last. */
  lemma ChainNext(succ: Successors, h: nat, i: nat)
    requires Ends(succ, h) && i < |Chain(succ, h)|
    ensures var c := Chain(succ, h);
      c[i] < |succ| && succ[c[i]] == if i + 1 < |c| then Some(c[i + 1]) else None
  {
    ChainShape(succ, h);
  }

  /** Every member of a chain has a chain of its own, the chain's tail. */
  lemma {:induction false} ChainSuffix(succ: Successors, h: nat, i: nat)
    requires Ends(succ, h) && i < |Chain(succ, h)|
    ensures Ends(succ, Chain(succ, h)[i])
    ensures Chain(succ, Chain(succ, h)[i]) == Chain(succ, h)[i..]
    decreases i
  {
    if i > 0 {
      ChainStep(succ, h);
      ChainSuffix(succ, succ[h].value, i - 1);
    }
  }

  /** The last node of the chain from h: where a walk along the links
      stops. */
  function Last(succ: Successors, h: nat): (r: nat)
    requires Ends(succ, h)
    ensures r < |succ| && succ[r].None?
    ensures r in Chain(succ, h)
  {
    ChainShape(succ, h);
    var c := Chain(succ, h);
    c[|c| - 1]
  }

  /** Walking on from where a walk stopped stays there. */
  lemma LastIsFixed(succ: Successors, h: nat)
    requires Ends(succ, h)
    ensures Ends(succ, Last(succ, h)) && Last(succ, Last(succ, h)) == Last(succ, h)
  {
    ChainEnd(succ, Last(succ, h));
  }

  /** A walk from h stops where the walk from h's successor stops. */
  lemma LastStep(succ: Successors, h: nat)
    requires Ends(succ, h) && succ[h].Some?
    ensures Ends(succ, succ[h].value) && Last(succ, h) == Last(succ, succ[h].value)
  {
    ChainStep(succ, h);
  }

  lemma {:induction false} WithinExtended(succ: Successors, more: Successors, h: nat, fuel: nat)
    requires EndsWithin(succ, h, fuel)
    requires forall i :: 0 <= i < |more| ==> more[i].None?
    ensures EndsWithin(succ + more, h, fuel)
    ensures ChainWithin(succ + more, h, fuel) == ChainWithin(succ, h, fuel)
    decreases fuel
  {
    if succ[h].Some? {
      WithinExtended(succ, more, succ[h].value, fuel - 1);
    }
  }

  /** Appending nodes without successors (as allocating a node does)
      leaves every chain that ended as it was. */
  lemma ChainExtended(succ: Successors, more: Successors, h: nat)
    requires Ends(succ, h)
    requires forall i :: 0 <= i < |more| ==> more[i].None?
    ensures Ends(succ + more, h)
    ensures Chain(succ + more, h) == Chain(succ, h)
    ensures Last(succ + more, h) == Last(succ, h)
  {
    WithinExtended(succ, more, h, |succ|);
    EndsWithinMore(succ + more, h, |succ|, |succ + more|);
  }

  lemma {:induction false} RunWithin(succ: Successors, a: nat, len: nat)
    requires len >= 1 && a + len <= |succ|
    requires forall i :: a <= i < a + len - 1 ==> succ[i] == Some(i + 1)
    requires succ[a + len - 1].None?
    ensures EndsWithin(succ, a, len)
    ensures ChainWithin(succ, a, len) == seq(len, k => a + k)
    decreases len
  {
    if len > 1 {
      RunWithin(succ, a + 1, len - 1);
      assert seq(len, k => a + k) == [a] + seq(len - 1, k => a + 1 + k);
    }
  }

  /** A run of consecutive nodes, each linked to the next and the last to
      nothing, is the chain from its first node. */
  lemma RunChain(succ: Successors, a: nat, len: nat)
    requires len >= 1 && a + len <= |succ|
    requires forall i :: a <= i < a + len - 1 ==> succ[i] == Some(i + 1)
    requires succ[a + len - 1].None?
    ensures Ends(succ, a) && Chain(succ, a) == seq(len, k => a + k)
  {
    RunWithin(succ, a, len);
    EndsWithinMore(succ, a, len, |succ|);
  }

  /** A chain that ends never visits a node twice. */
  lemma ChainDistinct(succ: Successors, h: nat)
    requires Ends(succ, h)
    ensures var c := Chain(succ, h);
      forall i, j :: 0 <= i < j < |c| ==> c[i] != c[j]
  {
    var c := Chain(succ, h);
    forall i, j | 0 <= i < j < |c|
      ensures c[i] != c[j]
    {
      ChainSuffix(succ, h, i);
      ChainSuffix(succ, h, j);
      assert |c[i..]| != |c[j..]|;
    }
  }

  /** Every node on the chain from h starts a chain that ends. */
  predicate AllEnd(succ: Successors, heads: seq<nat>) {
    forall k :: 0 <= k < |heads| ==> Ends(succ, heads[k])
  }

  /** The chains from each of heads in turn, one after the other: the
      order in which a nested walk visits the nodes, the outer walk giving
      the heads and the inner walk following succ from each. */
  function Sweep(succ: Successors, heads: seq<nat>): (r: seq<nat>)
    requires AllEnd(succ, heads)
    ensures |r| >= |heads|
  {
    if heads == [] then []
    else Sweep(succ, heads[..|heads| - 1]) + Chain(succ, heads[|heads| - 1])
  }

  /** The nested walk itself: the outer loop follows outer from start,
      noting each node's outer successor before the inner loop follows
      inner from it, noting each node's successor before visiting it. */
  method Walk(outer: Successors, inner: Successors, start: nat) returns (visited: seq<nat>)
    requires Ends(outer, start) && AllEnd(inner, Chain(outer, start))
    ensures visited == Sweep(inner, Chain(outer, start))
  {
    ghost var heads := Chain(outer, start);
    ChainShape(outer, start);
    visited := [];
    var current: Option<nat> := Some(start);
    ghost var k := 0;
    while current.Some?
      invariant 0 <= k <= |heads|
      invariant current == if k < |heads| then Some(heads[k]) else None
      invariant visited == Sweep(inner, heads[..k])
      decreases |heads| - k
    {
      var nextOuter := outer[current.value];
      ghost var row := Chain(inner, heads[k]);
      ChainShape(inner, heads[k]);
      var here := current;
      ghost var m := 0;
      while here.Some?
        invariant 0 <= m <= |row|
        invariant here == if m < |row| then Some(row[m]) else None
        invariant visited == Sweep(inner, heads[..k]) + row[..m]
        decreases |row| - m
      {
        var nextInner := inner[here.value];
        visited := visited + [here.value];
        here := nextInner;
        m := m + 1;
      }
      assert heads[..k + 1][..k] == heads[..k];
      current := nextOuter;
      k := k + 1;
    }
    assert heads[..k] == heads;
  }

  /** FindAll along succ from start, start included: the chain itself. */
  method Follow(succ: Successors, start: nat) returns (found: seq<nat>)
    requires Ends(succ, start)
    ensures found == Chain(succ, start)
  {
    ghost var c := Chain(succ, start);
    found := [];
    var here: Option<nat> := Some(start);
    while here.Some?
      invariant 0 <= |found| <= |c| && found == c[..|found|]
      invariant here == if |found| < |c| then Some(c[|found|]) else None
      decreases |c| - |found|
    {
      ChainNext(succ, start, |found|);
      found := found + [here.value];
      here := succ[here.value];
    }
  }
}
