/** API: the two graph queries the engine's callers use to find their way
    around the island mesh. A MusicNode* that may be null is an
    Option of a node handle. */
module Api {
  import opened Wrappers
  import opened Chains
  import opened Graph

  /** API::IsIsland: a type test, true exactly for a (non-null) island. */
  predicate IsIsland(g: MusicGraph, n: Option<Handle>)
    reads g
    requires g.Valid() && (n.Some? ==> n.value < |g.kinds|)
  {
    n.Some? && g.kinds[n.value].Island?
  }

  /** Where RaiseToTopPart leaves its node: none for a node that is not an
      island, otherwise the last island met going back up the instant. */
  function TopPart(g: MusicGraph, n: Option<Handle>): (r: Option<Handle>)
    reads g
    requires g.Valid() && (n.Some? ==> n.value < |g.kinds|)
    requires IsIsland(g, n) ==> Ends(g.downFrom, n.value)
    ensures r.Some? <==> IsIsland(g, n)
    ensures r.Some? ==> r.value < |g.kinds| && g.downFrom[r.value].None?
    ensures r.Some? ==> r.value in Chain(g.downFrom, n.value)
  {
    if IsIsland(g, n) then Some(Last(g.downFrom, n.value)) else None
  }

  /** API::RaiseToTopPart: a node that is not an island becomes null and
      the answer is false; an island is replaced by the island above it
      until none is left, and the answer is true. The loop has no guard
      against a cycle of instant-wise links, so the instant above an
      island is required to end. */
  method RaiseToTopPart(g: MusicGraph, n: Option<Handle>) returns (found: bool, m: Option<Handle>)
    requires g.Valid() && (n.Some? ==> n.value < |g.kinds|)
    requires IsIsland(g, n) ==> Ends(g.downFrom, n.value)
    ensures found <==> IsIsland(g, n)
    ensures m == TopPart(g, n)
  {
    if !IsIsland(g, n) {
      return false, None;
    }
    ghost var c := Chain(g.downFrom, n.value);
    ChainShape(g.downFrom, n.value);
    var h := n.value;
    ghost var i := 0;
    while g.downFrom[h].Some?
      invariant 0 <= i < |c| && h == c[i]
      decreases |c| - i
    {
      h := g.downFrom[h].value;
      i := i + 1;
    }
    ChainNext(g.downFrom, n.value, i);
    return true, Some(h);
  }

  /** Raising a raised node leaves it where it is: the top part of an
      instant is an island with nothing above it, provided instant-wise
      links into islands come from islands (as in every mesh
      CreateIslands, AppendColumn or the XML reader builds). */
  lemma RaiseIdempotent(g: MusicGraph, n: Option<Handle>)
    requires g.Valid() && IslandsLinked(g.kinds, g.downFrom) && (n.Some? ==> n.value < |g.kinds|)
    requires IsIsland(g, n) ==> Ends(g.downFrom, n.value)
    ensures var r := TopPart(g, n);
      && (IsIsland(g, r) ==> Ends(g.downFrom, r.value))
      && TopPart(g, r) == r
  {
    var r := TopPart(g, n);
    if r.Some? {
      var c := Chain(g.downFrom, n.value);
      ChainShape(g.downFrom, n.value);
      IslandChain(g.kinds, g.downFrom, n.value, |c| - 1);
      LastIsFixed(g.downFrom, n.value);
    }
  }
}
