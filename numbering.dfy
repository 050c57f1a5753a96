/** Numbering: recovering, from the part-wise and instant-wise links of the
    islands alone, a part number and an instant number for every island,
    the span of every part and a part-by-instant lookup of the islands.

    Parts are found first. Every island without a part-wise link into it
    starts a strand, and the islands along the strand are tagged with the
    strand's number; an instant-wise link from one island to another says
    that the first one's part is above the second one's; the part ordering
    solver either finds these observations contradictory (crossing staves)
    or orders the parts, and the islands are renumbered by that order.
    Instants are found second, by advancing a leading edge of islands one
    instant group at a time. */
module Numbering {
  import opened Wrappers
  import opened Chains
  import opened Graph
  import PartOrder

  /** The first and last island of a part, null until marked. */
  datatype Bounds = Bounds(first: Option<Handle>, last: Option<Handle>)

  /** The instants of a part's first and last island. */
  datatype Range = Range(first: int, last: int)

  /** Increasing handles: a list in handle order without repetition. */
  predicate Increasing(s: seq<Handle>) {
    forall i, j :: 0 <= i < j < |s| ==> s[i] < s[j]
  }

  /** islands lists the islands of the graph in handle order. */
  ghost predicate ListsIslands(kinds: seq<NodeKind>, islands: seq<Handle>) {
    && Increasing(islands)
    && (forall h :: h in islands <==> 0 <= h < |kinds| && kinds[h].Island?)
  }

  /** The mesh links the geometry follows join islands to islands (it
      reads typesetting information at both ends of each). */
  ghost predicate Meshed(kinds: seq<NodeKind>, across: Successors, acrossFrom: Successors, down: Successors) {
    && |across| == |kinds| && |acrossFrom| == |kinds| && |down| == |kinds|
    && IslandsLinked(kinds, across) && IslandsLinked(kinds, acrossFrom) && IslandsLinked(kinds, down)
  }

  /** Following instant-wise links down from any island comes to an end:
      the instant numbering walks them from every island it meets. */
  ghost predicate Columns(kinds: seq<NodeKind>, across: Successors, acrossFrom: Successors, down: Successors) {
    && Meshed(kinds, across, acrossFrom, down)
    && forall h :: 0 <= h < |kinds| && kinds[h].Island? ==> Ends(down, h)
  }

  /** Following part-wise links forwards from an island without a
      part-wise link into it comes to an end: the part numbering walks
      them from every such island. */
  ghost predicate StrandsEnd(kinds: seq<NodeKind>, across: Successors, acrossFrom: Successors, down: Successors) {
    && Meshed(kinds, across, acrossFrom, down)
    && forall h :: 0 <= h < |kinds| && kinds[h].Island? && acrossFrom[h].None? ==> Ends(across, h)
  }

  /** The part-wise links form strands: a part-wise link out of an island
      is the one into the island it leads to (and the other way round),
      and following them forwards or backwards from any island comes to
      an end. Nothing in the graph keeps links this way (it keeps the
      first link of each kind at each end, see MusicGraph.AddAcross); the
      numbering is defined on any links, and says more when they do. */
  ghost predicate Strands(kinds: seq<NodeKind>, across: Successors, acrossFrom: Successors, down: Successors) {
    && Columns(kinds, across, acrossFrom, down) && StrandsEnd(kinds, across, acrossFrom, down)
    && (forall a :: 0 <= a < |kinds| && kinds[a].Island? && across[a].Some? ==>
          acrossFrom[across[a].value] == Some(a))
    && (forall b :: 0 <= b < |kinds| && kinds[b].Island? && acrossFrom[b].Some? ==>
          across[acrossFrom[b].value] == Some(b))
    && (forall h :: 0 <= h < |kinds| && kinds[h].Island? ==> Ends(across, h) && Ends(acrossFrom, h))
  }

  /** Every island carries typesetting information (the geometry writes
      its part and instant into it). */
  predicate Typeset(kinds: seq<NodeKind>, ts: seq<Option<TypesettingInfo>>) {
    |ts| == |kinds| && forall h :: 0 <= h < |kinds| && kinds[h].Island? ==> ts[h].Some?
  }

  /** The islands that start a strand (no part-wise link into them), in
      the order of islands. */
  function Origins(islands: seq<Handle>, acrossFrom: Successors): (r: seq<Handle>)
    ensures |r| <= |islands|
  {
    if islands == [] then []
    else
      var n := |islands| - 1;
      Origins(islands[..n], acrossFrom) +
        (if islands[n] < |acrossFrom| && acrossFrom[islands[n]].None? then [islands[n]] else [])
  }

  /** The origins are exactly the islands without a part-wise link into
      them. */
  lemma {:induction false} OriginsAre(islands: seq<Handle>, acrossFrom: Successors)
    ensures forall h :: h in Origins(islands, acrossFrom) <==>
      h in islands && h < |acrossFrom| && acrossFrom[h].None?
  {
    if islands != [] {
      var n := |islands| - 1;
      assert islands == islands[..n] + [islands[n]];
      OriginsAre(islands[..n], acrossFrom);
    }
  }

  /** The origins of a list in handle order are in handle order. */
  lemma {:induction false} OriginsIncrease(islands: seq<Handle>, acrossFrom: Successors)
    requires Increasing(islands)
    ensures Increasing(Origins(islands, acrossFrom))
  {
    if islands != [] {
      var n := |islands| - 1;
      var r0 := Origins(islands[..n], acrossFrom);
      OriginsIncrease(islands[..n], acrossFrom);
      OriginsAre(islands[..n], acrossFrom);
      forall i | 0 <= i < |r0|
        ensures r0[i] < islands[n]
      {
        assert r0[i] in islands[..n];
      }
    }
  }

  /** Walking back along part-wise links from an island of the strand
      started by origin o leads to o, and every island that walk leads to
      o is on o's strand. */
  lemma {:induction false} StrandForward(kinds: seq<NodeKind>, across: Successors, acrossFrom: Successors,
                                         down: Successors, o: Handle, i: nat)
    requires Strands(kinds, across, acrossFrom, down)
    requires o < |kinds| && kinds[o].Island? && acrossFrom[o].None? && i < |Chain(across, o)|
    ensures var x := Chain(across, o)[i];
      kinds[x].Island? && Ends(acrossFrom, x) && Last(acrossFrom, x) == o
    decreases i
  {
    IslandChain(kinds, across, o, i);
    if i == 0 {
      ChainEnd(acrossFrom, o);
    } else {
      StrandForward(kinds, across, acrossFrom, down, o, i - 1);
      ChainNext(across, o, i - 1);
      LastStep(acrossFrom, Chain(across, o)[i]);
    }
  }

  lemma {:induction false} StrandBackward(kinds: seq<NodeKind>, across: Successors, acrossFrom: Successors,
                                          down: Successors, h: Handle)
    requires Strands(kinds, across, acrossFrom, down) && h < |kinds| && kinds[h].Island?
    ensures Last(acrossFrom, h) < |kinds| && kinds[Last(acrossFrom, h)].Island?
    ensures Ends(across, Last(acrossFrom, h)) && h in Chain(across, Last(acrossFrom, h))
    decreases |Chain(acrossFrom, h)|
  {
    var o := Last(acrossFrom, h);
    var back := Chain(acrossFrom, h);
    ChainShape(acrossFrom, h);
    IslandChain(kinds, acrossFrom, h, |back| - 1);
    if acrossFrom[h].None? {
      ChainEnd(acrossFrom, h);
      assert Chain(across, h)[0] == h;
    } else {
      var p := acrossFrom[h].value;
      ChainStep(acrossFrom, h);
      LastStep(acrossFrom, h);
      StrandBackward(kinds, across, acrossFrom, down, p);
      var c := Chain(across, o);
      var i :| 0 <= i < |c| && c[i] == p;
      ChainNext(across, o, i);
      assert c[i + 1] == h;
    }
  }

  /** The number of the strand island h lies on: the position of its
      origin among the origins. */
  ghost function StrandIndex(kinds: seq<NodeKind>, across: Successors, acrossFrom: Successors,
                             down: Successors, islands: seq<Handle>, h: Handle): (k: nat)
    requires Strands(kinds, across, acrossFrom, down) && ListsIslands(kinds, islands)
    requires h < |kinds| && kinds[h].Island?
    ensures var origins := Origins(islands, acrossFrom);
      k < |origins| && origins[k] == Last(acrossFrom, h)
  {
    StrandBackward(kinds, across, acrossFrom, down, h);
    OriginsAre(islands, acrossFrom);
    PartOrder.IndexOf(Origins(islands, acrossFrom), Last(acrossFrom, h))
  }

  /** ts with the part of every island listed in members set to p. */
  function WithPart(ts: seq<Option<TypesettingInfo>>, members: seq<Handle>, p: int): (r: seq<Option<TypesettingInfo>>)
    ensures |r| == |ts|
  {
    seq(|ts|, h requires 0 <= h < |ts| =>
      if h in members && ts[h].Some? then Some(ts[h].value.(partID := p)) else ts[h])
  }

  lemma WithPartStep(ts: seq<Option<TypesettingInfo>>, members: seq<Handle>, m: nat, p: int)
    requires m < |members| && members[m] < |ts| && ts[members[m]].Some? && members[m] !in members[..m]
    ensures WithPart(ts, members[..m + 1], p) ==
      WithPart(ts, members[..m], p)[members[m] := Some(ts[members[m]].value.(partID := p))]
  {
    assert members[..m + 1] == members[..m] + [members[m]];
  }

  /** After the strands started by origins have been walked: an island on
      one of them has that origin's position among origins as its part,
      and everything else is as it was in ts0. */
  ghost predicate TaggedBy(kinds: seq<NodeKind>, across: Successors, acrossFrom: Successors, down: Successors,
                           ts0: seq<Option<TypesettingInfo>>, ts: seq<Option<TypesettingInfo>>, origins: seq<Handle>)
    requires Strands(kinds, across, acrossFrom, down) && |ts0| == |kinds| && |ts| == |kinds|
  {
    forall h :: 0 <= h < |kinds| ==>
      ts[h] == if kinds[h].Island? && ts0[h].Some? && Last(acrossFrom, h) in origins
               then Some(ts0[h].value.(partID := PartOrder.IndexOf(origins, Last(acrossFrom, h))))
               else ts0[h]
  }

  /** Walking one more strand, started by o, with the next number. */
  lemma TagStep(kinds: seq<NodeKind>, across: Successors, acrossFrom: Successors, down: Successors,
                ts0: seq<Option<TypesettingInfo>>, ts: seq<Option<TypesettingInfo>>, origins: seq<Handle>, o: Handle)
    requires Strands(kinds, across, acrossFrom, down) && |ts0| == |kinds| && |ts| == |kinds|
    requires TaggedBy(kinds, across, acrossFrom, down, ts0, ts, origins)
    requires o < |kinds| && kinds[o].Island? && acrossFrom[o].None? && o !in origins
    ensures TaggedBy(kinds, across, acrossFrom, down, ts0, WithPart(ts, Chain(across, o), |origins|), origins + [o])
  {
    var ts' := WithPart(ts, Chain(across, o), |origins|);
    forall h | 0 <= h < |kinds|
      ensures ts'[h] == if kinds[h].Island? && ts0[h].Some? && Last(acrossFrom, h) in origins + [o]
               then Some(ts0[h].value.(partID := PartOrder.IndexOf(origins + [o], Last(acrossFrom, h))))
               else ts0[h]
    {
      TagStepAt(kinds, across, acrossFrom, down, ts0, ts, origins, o, h);
    }
  }

  lemma TagStepAt(kinds: seq<NodeKind>, across: Successors, acrossFrom: Successors, down: Successors,
                  ts0: seq<Option<TypesettingInfo>>, ts: seq<Option<TypesettingInfo>>, origins: seq<Handle>,
                  o: Handle, h: Handle)
    requires Strands(kinds, across, acrossFrom, down) && |ts0| == |kinds| && |ts| == |kinds|
    requires o < |kinds| && kinds[o].Island? && acrossFrom[o].None? && o !in origins && h < |kinds|
    requires ts[h] == if kinds[h].Island? && ts0[h].Some? && Last(acrossFrom, h) in origins
               then Some(ts0[h].value.(partID := PartOrder.IndexOf(origins, Last(acrossFrom, h))))
               else ts0[h]
    ensures var ts' := WithPart(ts, Chain(across, o), |origins|);
      ts'[h] == if kinds[h].Island? && ts0[h].Some? && Last(acrossFrom, h) in origins + [o]
                then Some(ts0[h].value.(partID := PartOrder.IndexOf(origins + [o], Last(acrossFrom, h))))
                else ts0[h]
  {
    var c := Chain(across, o);
    if h in c {
      var i :| 0 <= i < |c| && c[i] == h;
      StrandForward(kinds, across, acrossFrom, down, o, i);
      PartOrder.IndexOfAppend(origins, o, o);
    } else if kinds[h].Island? {
      OffStrand(kinds, across, acrossFrom, down, origins, o, h);
    }
  }

  /** An island off the strand of o does not lead back to o, and its
      origin keeps its position. */
  lemma OffStrand(kinds: seq<NodeKind>, across: Successors, acrossFrom: Successors, down: Successors,
                  origins: seq<Handle>, o: Handle, h: Handle)
    requires Strands(kinds, across, acrossFrom, down)
    requires o < |kinds| && kinds[o].Island? && h < |kinds| && kinds[h].Island? && h !in Chain(across, o)
    ensures Last(acrossFrom, h) != o
    ensures Last(acrossFrom, h) in origins ==>
      PartOrder.IndexOf(origins + [o], Last(acrossFrom, h)) == PartOrder.IndexOf(origins, Last(acrossFrom, h))
  {
    StrandBackward(kinds, across, acrossFrom, down, h);
    if Last(acrossFrom, h) in origins {
      PartOrder.IndexOfAppend(origins, o, Last(acrossFrom, h));
    }
  }

  /** GatherIslands: the islands among the graph's nodes, in the order
      the graph gathers them. */
  method GatherIslands(kinds: seq<NodeKind>) returns (islands: seq<Handle>)
    ensures ListsIslands(kinds, islands)
  {
    islands := [];
    for h := 0 to |kinds|
      invariant Increasing(islands)
      invariant forall i :: 0 <= i < |islands| ==> islands[i] < h
      invariant forall x: Handle :: x in islands <==> x < h && kinds[x].Island?
    {
      if kinds[h].Island? {
        islands := islands + [h];
      }
    }
  }

  /** Every listed island's part-wise walk comes to an end. */
  ghost predicate WalksEnd(across: Successors, origins: seq<Handle>) {
    forall k :: 0 <= k < |origins| ==> Ends(across, origins[k])
  }

  /** ts after the strands of origins have been walked in order, the
      strand of origins[k] tagging every island it reaches with part k. */
  function Tagged(across: Successors, ts: seq<Option<TypesettingInfo>>, origins: seq<Handle>)
    : (r: seq<Option<TypesettingInfo>>)
    requires WalksEnd(across, origins)
    ensures |r| == |ts|
    decreases |origins|
  {
    if origins == [] then ts
    else
      var n := |origins| - 1;
      WithPart(Tagged(across, ts, origins[..n]), Chain(across, origins[n]), n)
  }

  /** The position among origins of the last one whose strand reaches h;
      none when no strand reaches h. */
  function LastReach(across: Successors, origins: seq<Handle>, h: Handle): (r: Option<nat>)
    requires WalksEnd(across, origins)
    ensures r.Some? ==> r.value < |origins| && h in Chain(across, origins[r.value])
    ensures forall k :: (if r.Some? then r.value else -1) < k < |origins| ==> h !in Chain(across, origins[k])
    decreases |origins|
  {
    if origins == [] then None
    else
      var n := |origins| - 1;
      if h in Chain(across, origins[n]) then Some(n) else LastReach(across, origins[..n], h)
  }

  /** What walking the strands leaves at h: the number of the last strand
      that reaches it, so a strand running into an island an earlier one
      tagged retags it; what ts had where no strand reaches. */
  lemma {:induction false} TaggedAt(across: Successors, ts: seq<Option<TypesettingInfo>>, origins: seq<Handle>,
                                    h: Handle)
    requires WalksEnd(across, origins) && h < |ts|
    ensures Tagged(across, ts, origins)[h] ==
      if ts[h].Some? && LastReach(across, origins, h).Some?
      then Some(ts[h].value.(partID := LastReach(across, origins, h).value))
      else ts[h]
    decreases |origins|
  {
    if origins != [] {
      var n := |origins| - 1;
      TaggedAt(across, ts, origins[..n], h);
    }
  }

  /** When the links form strands, walking the strands of distinct
      origins in order tags as TaggedBy says. */
  lemma {:induction false} TaggedStrands(kinds: seq<NodeKind>, across: Successors, acrossFrom: Successors,
                                         down: Successors, ts0: seq<Option<TypesettingInfo>>, origins: seq<Handle>)
    requires Strands(kinds, across, acrossFrom, down) && |ts0| == |kinds|
    requires forall k :: 0 <= k < |origins| ==>
      origins[k] < |kinds| && kinds[origins[k]].Island? && acrossFrom[origins[k]].None?
    requires forall i, j :: 0 <= i < j < |origins| ==> origins[i] != origins[j]
    ensures WalksEnd(across, origins)
    ensures TaggedBy(kinds, across, acrossFrom, down, ts0, Tagged(across, ts0, origins), origins)
    decreases |origins|
  {
    if origins != [] {
      var n := |origins| - 1;
      var prefix := origins[..n];
      TaggedStrands(kinds, across, acrossFrom, down, ts0, prefix);
      assert origins[n] !in prefix;
      TagStep(kinds, across, acrossFrom, down, ts0, Tagged(across, ts0, prefix), prefix, origins[n]);
      assert prefix + [origins[n]] == origins;
    }
  }

  /** The inner loop of MarkPartStrands: every island from o onwards
      along the part-wise links is tagged with part p. */
  method TagStrand(kinds: seq<NodeKind>, across: Successors, acrossFrom: Successors, down: Successors,
                   ts0: seq<Option<TypesettingInfo>>, o: Handle, p: int)
    returns (ts: seq<Option<TypesettingInfo>>)
    requires Meshed(kinds, across, acrossFrom, down) && Typeset(kinds, ts0)
    requires o < |kinds| && kinds[o].Island? && Ends(across, o)
    ensures ts == WithPart(ts0, Chain(across, o), p)
  {
    ghost var c := Chain(across, o);
    ChainDistinct(across, o);
    ts := ts0;
    var current := Some(o);
    ghost var m := 0;
    while current.Some?
      invariant m <= |c| && current == if m < |c| then Some(c[m]) else None
      invariant ts == WithPart(ts0, c[..m], p)
      decreases |c| - m
    {
      var x := current.value;
      IslandChain(kinds, across, o, m);
      assert c[m] !in c[..m];
      WithPartStep(ts0, c, m, p);
      ts := ts[x := Some(ts[x].value.(partID := p))];
      ChainNext(across, o, m);
      current := across[x];
      m := m + 1;
    }
    assert c[..m] == c;
  }

  /** Origins of a longer prefix of the islands, and an island not yet
      met is not among the origins so far. */
  lemma OriginsNext(islands: seq<Handle>, acrossFrom: Successors, i: nat)
    requires Increasing(islands) && i < |islands| && islands[i] < |acrossFrom|
    ensures acrossFrom[islands[i]].None? ==>
      Origins(islands[..i + 1], acrossFrom) == Origins(islands[..i], acrossFrom) + [islands[i]]
    ensures acrossFrom[islands[i]].Some? ==>
      Origins(islands[..i + 1], acrossFrom) == Origins(islands[..i], acrossFrom)
    ensures islands[i] !in Origins(islands[..i], acrossFrom)
  {
    assert islands[..i + 1][..i] == islands[..i];
    OriginsAre(islands[..i], acrossFrom);
  }

  /** Walking one more strand: the next number along its islands. */
  lemma TaggedNext(across: Successors, ts: seq<Option<TypesettingInfo>>, origins: seq<Handle>, o: Handle)
    requires WalksEnd(across, origins) && Ends(across, o)
    ensures WalksEnd(across, origins + [o])
    ensures Tagged(across, ts, origins + [o]) == WithPart(Tagged(across, ts, origins), Chain(across, o), |origins|)
  {
    assert (origins + [o])[..|origins|] == origins;
  }

  /** The origins among a list of islands have part-wise walks that end. */
  lemma OriginsEnd(kinds: seq<NodeKind>, across: Successors, acrossFrom: Successors, down: Successors,
                   list: seq<Handle>)
    requires StrandsEnd(kinds, across, acrossFrom, down) && AllIslands(kinds, list)
    ensures WalksEnd(across, Origins(list, acrossFrom))
  {
    var origins := Origins(list, acrossFrom);
    OriginsAre(list, acrossFrom);
    forall k | 0 <= k < |origins|
      ensures Ends(across, origins[k])
    {
      assert origins[k] in origins;
      var j :| 0 <= j < |list| && list[j] == origins[k];
    }
  }

  /** What MarkPartStrands leaves after walking the strands of the
      origins among list. */
  ghost function StrandTags(kinds: seq<NodeKind>, across: Successors, acrossFrom: Successors, down: Successors,
                            list: seq<Handle>, ts0: seq<Option<TypesettingInfo>>): seq<Option<TypesettingInfo>>
    requires StrandsEnd(kinds, across, acrossFrom, down) && AllIslands(kinds, list)
  {
    OriginsEnd(kinds, across, acrossFrom, down, list);
    Tagged(across, ts0, Origins(list, acrossFrom))
  }

  /** When the links form strands, MarkPartStrands tags as TaggedBy says. */
  lemma TagsByStrands(kinds: seq<NodeKind>, across: Successors, acrossFrom: Successors, down: Successors,
                      islands: seq<Handle>, ts0: seq<Option<TypesettingInfo>>)
    requires Strands(kinds, across, acrossFrom, down) && ListsIslands(kinds, islands) && AllIslands(kinds, islands)
    requires |ts0| == |kinds|
    ensures TaggedBy(kinds, across, acrossFrom, down, ts0, StrandTags(kinds, across, acrossFrom, down, islands, ts0),
                     Origins(islands, acrossFrom))
  {
    var origins := Origins(islands, acrossFrom);
    OriginsAre(islands, acrossFrom);
    OriginsIncrease(islands, acrossFrom);
    forall k | 0 <= k < |origins|
      ensures origins[k] < |kinds| && kinds[origins[k]].Island? && acrossFrom[origins[k]].None?
    {
      assert origins[k] in origins;
    }
    TaggedStrands(kinds, across, acrossFrom, down, ts0, origins);
  }

  /** Tagging only sets the parts of islands. */
  lemma TagsKeep(kinds: seq<NodeKind>, across: Successors, acrossFrom: Successors, down: Successors,
                 islands: seq<Handle>, ts0: seq<Option<TypesettingInfo>>, h: Handle)
    requires StrandsEnd(kinds, across, acrossFrom, down) && AllIslands(kinds, islands)
    requires |ts0| == |kinds| && h < |kinds|
    ensures var ts := StrandTags(kinds, across, acrossFrom, down, islands, ts0);
      |ts| == |kinds| &&
      (ts[h] == ts0[h] ||
       (kinds[h].Island? && ts0[h].Some? && ts[h].Some? && ts[h] == Some(ts0[h].value.(partID := ts[h].value.partID))))
  {
    var origins := Origins(islands, acrossFrom);
    OriginsEnd(kinds, across, acrossFrom, down, islands);
    TaggedAt(across, ts0, origins, h);
    var r := LastReach(across, origins, h);
    if ts0[h].Some? && r.Some? {
      var c := Chain(across, origins[r.value]);
      OriginsAre(islands, acrossFrom);
      assert origins[r.value] in origins;
      var i :| 0 <= i < |c| && c[i] == h;
      IslandChain(kinds, across, origins[r.value], i);
    }
  }

  /** MarkPartStrands after the first i islands: the strands of the
      origins among them have been walked in order, and count of them so
      far. */
  ghost predicate MarkedUpTo(kinds: seq<NodeKind>, across: Successors, acrossFrom: Successors, down: Successors,
                             islands: seq<Handle>, ts0: seq<Option<TypesettingInfo>>,
                             i: nat, ts: seq<Option<TypesettingInfo>>, count: nat)
    requires StrandsEnd(kinds, across, acrossFrom, down) && AllIslands(kinds, islands)
  {
    && i <= |islands| && Typeset(kinds, ts) && count == |Origins(islands[..i], acrossFrom)|
    && ts == StrandTags(kinds, across, acrossFrom, down, islands[..i], ts0)
  }

  /** One round of MarkPartStrands: island i is skipped unless it starts
      a strand, whose islands then get the next number. */
  method MarkStrandAt(kinds: seq<NodeKind>, across: Successors, acrossFrom: Successors, down: Successors,
                      islands: seq<Handle>, ts0: seq<Option<TypesettingInfo>>,
                      i: nat, ts: seq<Option<TypesettingInfo>>, count: nat)
    returns (ts': seq<Option<TypesettingInfo>>, count': nat)
    requires StrandsEnd(kinds, across, acrossFrom, down) && ListsIslands(kinds, islands)
    requires AllIslands(kinds, islands) && Typeset(kinds, ts0)
    requires i < |islands| && MarkedUpTo(kinds, across, acrossFrom, down, islands, ts0, i, ts, count)
    ensures MarkedUpTo(kinds, across, acrossFrom, down, islands, ts0, i + 1, ts', count')
  {
    var o := islands[i];
    ghost var origins := Origins(islands[..i], acrossFrom);
    OriginsNext(islands, acrossFrom, i);
    OriginsEnd(kinds, across, acrossFrom, down, islands[..i]);
    if acrossFrom[o].None? {
      ts' := TagStrand(kinds, across, acrossFrom, down, ts, o, count);
      count' := count + 1;
      TaggedNext(across, ts0, origins, o);
      assert Origins(islands[..i + 1], acrossFrom) == origins + [o];
      assert Typeset(kinds, ts') by {
        assert forall h :: 0 <= h < |ts| ==> (ts'[h].Some? <==> ts[h].Some?);
      }
    } else {
      ts', count' := ts, count;
      assert Origins(islands[..i + 1], acrossFrom) == origins;
    }
  }

  /** MarkPartStrands: the strands are numbered 0, 1, ... in the order of
      their origins among the islands and walked in that order, every
      island reached getting the strand's number, and the number of
      strands is returned. When the links form strands, every island
      gets the number of its own strand. */
  method MarkPartStrands(kinds: seq<NodeKind>, across: Successors, acrossFrom: Successors, down: Successors,
                         islands: seq<Handle>, ts0: seq<Option<TypesettingInfo>>)
    returns (ts: seq<Option<TypesettingInfo>>, count: nat)
    requires StrandsEnd(kinds, across, acrossFrom, down) && ListsIslands(kinds, islands) && Typeset(kinds, ts0)
    ensures AllIslands(kinds, islands) && Typeset(kinds, ts) && count == |Origins(islands, acrossFrom)|
    ensures ts == StrandTags(kinds, across, acrossFrom, down, islands, ts0)
    ensures Strands(kinds, across, acrossFrom, down) ==>
      TaggedBy(kinds, across, acrossFrom, down, ts0, ts, Origins(islands, acrossFrom))
  {
    ListedIslands(kinds, islands);
    ts, count := ts0, 0;
    for i := 0 to |islands|
      invariant MarkedUpTo(kinds, across, acrossFrom, down, islands, ts0, i, ts, count)
    {
      ts, count := MarkStrandAt(kinds, across, acrossFrom, down, islands, ts0, i, ts, count);
    }
    assert islands[..|islands|] == islands;
    if Strands(kinds, across, acrossFrom, down) {
      TagsByStrands(kinds, across, acrossFrom, down, islands, ts0);
    }
  }

  /** Every island has a part number. */
  predicate Numbered(kinds: seq<NodeKind>, ts: seq<Option<TypesettingInfo>>) {
    |ts| == |kinds| &&
    forall h :: 0 <= h < |kinds| && kinds[h].Island? ==> ts[h].Some? && 0 <= ts[h].value.partID
  }

  /** Every island has a part number in 0 .. count-1. */
  predicate PartsBelow(kinds: seq<NodeKind>, ts: seq<Option<TypesettingInfo>>, count: nat) {
    Numbered(kinds, ts) &&
    forall h :: 0 <= h < |kinds| && kinds[h].Island? ==> ts[h].value.partID < count
  }

  /** The part number of an island that has one. */
  function PartOf(ts: seq<Option<TypesettingInfo>>, h: Handle): nat
    requires h < |ts| && ts[h].Some? && ts[h].value.partID >= 0
  {
    ts[h].value.partID
  }

  /** Every handle listed is an island. */
  predicate AllIslands(kinds: seq<NodeKind>, s: seq<Handle>) {
    forall i :: 0 <= i < |s| ==> s[i] < |kinds| && kinds[s[i]].Island?
  }

  /** MarkPartStrands numbers every island: each lies on the strand of
      one of the origins. */
  lemma AllTagged(kinds: seq<NodeKind>, across: Successors, acrossFrom: Successors, down: Successors,
                  islands: seq<Handle>, ts0: seq<Option<TypesettingInfo>>, ts: seq<Option<TypesettingInfo>>)
    requires Strands(kinds, across, acrossFrom, down) && ListsIslands(kinds, islands)
    requires Typeset(kinds, ts0) && |ts| == |kinds|
    requires TaggedBy(kinds, across, acrossFrom, down, ts0, ts, Origins(islands, acrossFrom))
    ensures PartsBelow(kinds, ts, |Origins(islands, acrossFrom)|) && AllIslands(kinds, islands)
  {
    forall h | 0 <= h < |kinds| && kinds[h].Island?
      ensures ts[h].Some? && 0 <= ts[h].value.partID < |Origins(islands, acrossFrom)|
    {
      var k := StrandIndex(kinds, across, acrossFrom, down, islands, h);
    }
    ListedIslands(kinds, islands);
  }

  /** The listed islands are islands. */
  lemma ListedIslands(kinds: seq<NodeKind>, islands: seq<Handle>)
    requires ListsIslands(kinds, islands)
    ensures AllIslands(kinds, islands)
  {
    forall i | 0 <= i < |islands|
      ensures islands[i] < |kinds| && kinds[islands[i]].Island?
    {
      assert islands[i] in islands;
    }
  }

  /** The strand tag as the source states it: every island reached from
      an origin o along part-wise links carries o's position among the
      origins as its part. */
  lemma StrandTagged(kinds: seq<NodeKind>, across: Successors, acrossFrom: Successors, down: Successors,
                     islands: seq<Handle>, ts0: seq<Option<TypesettingInfo>>, ts: seq<Option<TypesettingInfo>>,
                     k: nat, i: nat)
    requires Strands(kinds, across, acrossFrom, down) && ListsIslands(kinds, islands)
    requires Typeset(kinds, ts0) && |ts| == |kinds|
    requires TaggedBy(kinds, across, acrossFrom, down, ts0, ts, Origins(islands, acrossFrom))
    requires k < |Origins(islands, acrossFrom)|
    requires var o := Origins(islands, acrossFrom)[k]; Ends(across, o) && i < |Chain(across, o)|
    ensures var x := Chain(across, Origins(islands, acrossFrom)[k])[i];
      x < |ts| && ts[x].Some? && ts[x].value.partID == k
  {
    var origins := Origins(islands, acrossFrom);
    var o := origins[k];
    OriginsAre(islands, acrossFrom);
    OriginsIncrease(islands, acrossFrom);
    assert o in origins;
    StrandForward(kinds, across, acrossFrom, down, o, i);
    var j := PartOrder.IndexOf(origins, o);
    assert j == k;
  }

  /** The observations ObservePartOrders makes, one per island with an
      instant-wise link out of it: the part of the island is above the
      part of the island the link leads to. */
  function Observations(kinds: seq<NodeKind>, down: Successors, ts: seq<Option<TypesettingInfo>>,
                        islands: seq<Handle>): (r: seq<PartOrder.Constraint>)
    requires |down| == |kinds| && IslandsLinked(kinds, down) && Numbered(kinds, ts)
    requires AllIslands(kinds, islands)
  {
    if islands == [] then []
    else
      var n := |islands| - 1;
      var a := islands[n];
      assert a in islands && forall h :: h in islands[..n] ==> h in islands;
      Observations(kinds, down, ts, islands[..n]) +
        (if down[a].Some? then [PartOrder.Precedes(PartOf(ts, a), PartOf(ts, down[a].value))] else [])
  }

  /** An order constraint is observed exactly when some island's
      instant-wise link joins a part to the part after it. */
  lemma {:induction false} ObservationsAre(kinds: seq<NodeKind>, down: Successors, ts: seq<Option<TypesettingInfo>>,
                                           islands: seq<Handle>)
    requires |down| == |kinds| && IslandsLinked(kinds, down) && Numbered(kinds, ts)
    requires AllIslands(kinds, islands)
    ensures forall c :: c in Observations(kinds, down, ts, islands) <==>
      exists a :: a in islands && down[a].Some? &&
        c == PartOrder.Precedes(PartOf(ts, a), PartOf(ts, down[a].value))
  {
    if islands != [] {
      var n := |islands| - 1;
      assert islands == islands[..n] + [islands[n]];
      ObservationsAre(kinds, down, ts, islands[..n]);
    }
  }

  /** The observations only mention parts that exist. */
  lemma ObservationsWithin(kinds: seq<NodeKind>, down: Successors, ts: seq<Option<TypesettingInfo>>,
                           islands: seq<Handle>, count: nat)
    requires |down| == |kinds| && IslandsLinked(kinds, down) && PartsBelow(kinds, ts, count)
    requires AllIslands(kinds, islands)
    ensures PartOrder.Within(count, Observations(kinds, down, ts, islands))
  {
    ObservationsAre(kinds, down, ts, islands);
  }

  /** ObservePartOrders: one observation per island with an instant-wise
      link out of it, in the order of the islands. */
  method ObservePartOrders(kinds: seq<NodeKind>, down: Successors, ts: seq<Option<TypesettingInfo>>,
                           islands: seq<Handle>) returns (cons: seq<PartOrder.Constraint>)
    requires |down| == |kinds| && IslandsLinked(kinds, down) && Numbered(kinds, ts)
    requires AllIslands(kinds, islands)
    ensures cons == Observations(kinds, down, ts, islands)
  {
    cons := [];
    for i := 0 to |islands|
      invariant AllIslands(kinds, islands[..i]) && cons == Observations(kinds, down, ts, islands[..i])
    {
      var current := islands[i];
      assert islands[..i + 1][..i] == islands[..i];
      assert current in islands && forall h :: h in islands[..i + 1] ==> h in islands;
      var next := down[current];
      if next.Some? {
        cons := cons + [PartOrder.Precedes(ts[current].value.partID, ts[next.value].value.partID)];
      }
    }
    assert islands[..|islands|] == islands;
  }

  /** The PartMap loop: the part placed i-th by the solver is renumbered
      i, so PartMap is the solver's ordering inverted. */
  method MakePartMap(count: nat, order: seq<nat>) returns (partMap: seq<nat>)
    requires PartOrder.IsOrdering(count, order)
    ensures partMap == PartOrder.Inverse(count, order)
  {
    partMap := Filled(0, count);
    for i := 0 to count
      invariant |partMap| == count
      invariant forall j :: 0 <= j < i ==> partMap[order[j]] == j
    {
      partMap := partMap[order[i] := i];
    }
    var rank := PartOrder.Inverse(count, order);
    forall p | 0 <= p < count
      ensures partMap[p] == rank[p]
    {
      assert order[rank[p]] == p;
    }
  }

  /** Every island's part replaced by its image under partMap. */
  function Renumbered(kinds: seq<NodeKind>, ts: seq<Option<TypesettingInfo>>, partMap: seq<nat>): (r: seq<Option<TypesettingInfo>>)
    requires PartsBelow(kinds, ts, |partMap|)
    ensures |r| == |ts|
  {
    seq(|ts|, h requires 0 <= h < |ts| =>
      if kinds[h].Island? then Some(ts[h].value.(partID := partMap[ts[h].value.partID])) else ts[h])
  }

  /** The renumbering loop of AssignPartIDs, over the islands. */
  method RenumberParts(kinds: seq<NodeKind>, islands: seq<Handle>, ts0: seq<Option<TypesettingInfo>>,
                       partMap: seq<nat>) returns (ts: seq<Option<TypesettingInfo>>)
    requires ListsIslands(kinds, islands) && PartsBelow(kinds, ts0, |partMap|)
    ensures ts == Renumbered(kinds, ts0, partMap)
  {
    ts := ts0;
    for i := 0 to |islands|
      invariant |ts| == |ts0|
      invariant forall h :: 0 <= h < |ts| ==>
        ts[h] == if h in islands[..i] then Some(ts0[h].value.(partID := partMap[ts0[h].value.partID])) else ts0[h]
    {
      var x := islands[i];
      assert x in islands;
      assert x !in islands[..i];
      assert islands[..i + 1] == islands[..i] + [x];
      ts := ts[x := Some(ts[x].value.(partID := partMap[ts[x].value.partID]))];
    }
    assert islands[..|islands|] == islands;
  }

  /** The part an island ends up with once the strand numbers have been
      renumbered by rank: its strand's number, renumbered; nothing else
      about its typesetting changes. */
  lemma FinalPart(kinds: seq<NodeKind>, across: Successors, acrossFrom: Successors, down: Successors,
                  islands: seq<Handle>, ts0: seq<Option<TypesettingInfo>>, tagged: seq<Option<TypesettingInfo>>,
                  rank: seq<nat>, h: Handle)
    requires Strands(kinds, across, acrossFrom, down) && ListsIslands(kinds, islands)
    requires Typeset(kinds, ts0) && |tagged| == |kinds|
    requires TaggedBy(kinds, across, acrossFrom, down, ts0, tagged, Origins(islands, acrossFrom))
    requires |rank| == |Origins(islands, acrossFrom)|
    requires h < |kinds| && kinds[h].Island?
    ensures PartsBelow(kinds, tagged, |rank|) && Last(acrossFrom, h) in Origins(islands, acrossFrom)
    ensures var ts := Renumbered(kinds, tagged, rank);
      ts[h].Some? && ts[h].value.partID == rank[PartOrder.IndexOf(Origins(islands, acrossFrom), Last(acrossFrom, h))]
    ensures Renumbered(kinds, tagged, rank)[h] ==
      Some(ts0[h].value.(partID := rank[PartOrder.IndexOf(Origins(islands, acrossFrom), Last(acrossFrom, h))]))
  {
    AllTagged(kinds, across, acrossFrom, down, islands, ts0, tagged);
    var k := StrandIndex(kinds, across, acrossFrom, down, islands, h);
  }

  /** After renumbering, islands joined by a part-wise link are in the
      same part. */
  lemma PartsFollowStrands(kinds: seq<NodeKind>, across: Successors, acrossFrom: Successors, down: Successors,
                           islands: seq<Handle>, ts0: seq<Option<TypesettingInfo>>, tagged: seq<Option<TypesettingInfo>>,
                           rank: seq<nat>, a: Handle)
    requires Strands(kinds, across, acrossFrom, down) && ListsIslands(kinds, islands)
    requires Typeset(kinds, ts0) && |tagged| == |kinds|
    requires TaggedBy(kinds, across, acrossFrom, down, ts0, tagged, Origins(islands, acrossFrom))
    requires PartsBelow(kinds, tagged, |Origins(islands, acrossFrom)|)
    requires |rank| == |Origins(islands, acrossFrom)|
    requires a < |kinds| && kinds[a].Island? && across[a].Some?
    ensures var ts := Renumbered(kinds, tagged, rank); var b := across[a].value;
      b < |ts| && ts[a].Some? && ts[b].Some? && ts[a].value.partID == ts[b].value.partID
  {
    var b := across[a].value;
    FinalPart(kinds, across, acrossFrom, down, islands, ts0, tagged, rank, a);
    FinalPart(kinds, across, acrossFrom, down, islands, ts0, tagged, rank, b);
    LastStep(acrossFrom, b);
  }

  /** After renumbering, the part an instant-wise link comes from is
      above (numbered lower than) the part it leads to, when the ranks
      respect the observations. */
  lemma PartsAscend(kinds: seq<NodeKind>, across: Successors, acrossFrom: Successors, down: Successors,
                    islands: seq<Handle>, tagged: seq<Option<TypesettingInfo>>, rank: seq<nat>, a: Handle)
    requires Meshed(kinds, across, acrossFrom, down) && ListsIslands(kinds, islands) && AllIslands(kinds, islands)
    requires PartsBelow(kinds, tagged, |rank|)
    requires PartOrder.Respects(rank, Observations(kinds, down, tagged, islands))
    requires a < |kinds| && kinds[a].Island? && down[a].Some?
    ensures var ts := Renumbered(kinds, tagged, rank); var b := down[a].value;
      b < |ts| && ts[a].Some? && ts[b].Some? && ts[a].value.partID < ts[b].value.partID
  {
    var b := down[a].value;
    ObservationsAre(kinds, down, tagged, islands);
    assert a in islands;
    assert PartOrder.Precedes(PartOf(tagged, a), PartOf(tagged, b)) in Observations(kinds, down, tagged, islands);
  }

  /** An origin is the last island going back along its own strand. */
  lemma OriginIsOwnStrand(acrossFrom: Successors, o: Handle)
    requires o < |acrossFrom| && acrossFrom[o].None?
    ensures Ends(acrossFrom, o) && Last(acrossFrom, o) == o
  {
    ChainEnd(acrossFrom, o);
  }

  /** The position of an entry of a list without repetitions. */
  lemma IndexOfIncreasing(s: seq<Handle>, k: nat)
    requires Increasing(s) && k < |s|
    ensures PartOrder.IndexOf(s, s[k]) == k
  {
    var j := PartOrder.IndexOf(s, s[k]);
  }

  /** After renumbering, the k-th origin's part is rank[k]. */
  lemma OriginPart(kinds: seq<NodeKind>, across: Successors, acrossFrom: Successors, down: Successors,
                   islands: seq<Handle>, ts0: seq<Option<TypesettingInfo>>, tagged: seq<Option<TypesettingInfo>>,
                   rank: seq<nat>, k: nat)
    requires Strands(kinds, across, acrossFrom, down) && ListsIslands(kinds, islands)
    requires Typeset(kinds, ts0) && |tagged| == |kinds|
    requires TaggedBy(kinds, across, acrossFrom, down, ts0, tagged, Origins(islands, acrossFrom))
    requires PartsBelow(kinds, tagged, |Origins(islands, acrossFrom)|)
    requires |rank| == |Origins(islands, acrossFrom)| && k < |rank|
    ensures var o := Origins(islands, acrossFrom)[k]; var ts := Renumbered(kinds, tagged, rank);
      o < |ts| && ts[o].Some? && ts[o].value.partID == rank[k]
  {
    var origins := Origins(islands, acrossFrom);
    var o := origins[k];
    OriginsAre(islands, acrossFrom);
    OriginsIncrease(islands, acrossFrom);
    assert o in origins;
    OriginIsOwnStrand(acrossFrom, o);
    FinalPart(kinds, across, acrossFrom, down, islands, ts0, tagged, rank, o);
    IndexOfIncreasing(origins, k);
  }

  lemma PartTaken(kinds: seq<NodeKind>, across: Successors, acrossFrom: Successors, down: Successors,
                  islands: seq<Handle>, ts0: seq<Option<TypesettingInfo>>, tagged: seq<Option<TypesettingInfo>>,
                  order: seq<nat>, p: nat)
    requires Strands(kinds, across, acrossFrom, down) && ListsIslands(kinds, islands)
    requires Typeset(kinds, ts0) && |tagged| == |kinds|
    requires TaggedBy(kinds, across, acrossFrom, down, ts0, tagged, Origins(islands, acrossFrom))
    requires PartsBelow(kinds, tagged, |Origins(islands, acrossFrom)|)
    requires PartOrder.IsOrdering(|Origins(islands, acrossFrom)|, order) && p < |order|
    ensures var origins := Origins(islands, acrossFrom);
      var ts := Renumbered(kinds, tagged, PartOrder.Inverse(|origins|, order));
      var k := order[p];
      k < |origins| && origins[k] < |ts| && ts[origins[k]].Some? && ts[origins[k]].value.partID == p
  {
    var rank := PartOrder.Inverse(|order|, order);
    OriginPart(kinds, across, acrossFrom, down, islands, ts0, tagged, rank, order[p]);
  }

  /** After renumbering by the inverse of an ordering, every part number
      p in 0 .. count-1 is taken: by the origin of the strand the ordering
      puts p-th. */
  lemma PartsOnto(kinds: seq<NodeKind>, across: Successors, acrossFrom: Successors, down: Successors,
                  islands: seq<Handle>, ts0: seq<Option<TypesettingInfo>>, tagged: seq<Option<TypesettingInfo>>,
                  order: seq<nat>)
    requires Strands(kinds, across, acrossFrom, down) && ListsIslands(kinds, islands)
    requires Typeset(kinds, ts0) && |tagged| == |kinds|
    requires TaggedBy(kinds, across, acrossFrom, down, ts0, tagged, Origins(islands, acrossFrom))
    requires PartsBelow(kinds, tagged, |Origins(islands, acrossFrom)|)
    requires PartOrder.IsOrdering(|Origins(islands, acrossFrom)|, order)
    ensures var origins := Origins(islands, acrossFrom);
      var ts := Renumbered(kinds, tagged, PartOrder.Inverse(|origins|, order));
      forall p :: 0 <= p < |origins| ==>
        order[p] < |origins| && origins[order[p]] < |ts| &&
        ts[origins[order[p]]].Some? && ts[origins[order[p]]].value.partID == p
  {
    forall p | 0 <= p < |order| {
      PartTaken(kinds, across, acrossFrom, down, islands, ts0, tagged, order, p);
    }
  }

  /** After renumbering by the inverse of an ordering, the strand
      origins have parts in 0 .. count-1, no two the same. */
  lemma PartsOneToOne(kinds: seq<NodeKind>, across: Successors, acrossFrom: Successors, down: Successors,
                      islands: seq<Handle>, ts0: seq<Option<TypesettingInfo>>, tagged: seq<Option<TypesettingInfo>>,
                      order: seq<nat>, k1: nat, k2: nat)
    requires Strands(kinds, across, acrossFrom, down) && ListsIslands(kinds, islands)
    requires Typeset(kinds, ts0) && |tagged| == |kinds|
    requires TaggedBy(kinds, across, acrossFrom, down, ts0, tagged, Origins(islands, acrossFrom))
    requires PartsBelow(kinds, tagged, |Origins(islands, acrossFrom)|)
    requires PartOrder.IsOrdering(|Origins(islands, acrossFrom)|, order)
    requires k1 < |Origins(islands, acrossFrom)| && k2 < |Origins(islands, acrossFrom)| && k1 != k2
    ensures var origins := Origins(islands, acrossFrom);
      var ts := Renumbered(kinds, tagged, PartOrder.Inverse(|origins|, order));
      && origins[k1] < |ts| && origins[k2] < |ts| && ts[origins[k1]].Some? && ts[origins[k2]].Some?
      && 0 <= ts[origins[k1]].value.partID < |origins|
      && ts[origins[k1]].value.partID != ts[origins[k2]].value.partID
  {
    var origins := Origins(islands, acrossFrom);
    var rank := PartOrder.Inverse(|origins|, order);
    OriginPart(kinds, across, acrossFrom, down, islands, ts0, tagged, rank, k1);
    OriginPart(kinds, across, acrossFrom, down, islands, ts0, tagged, rank, k2);
    assert order[rank[k1]] == k1 && order[rank[k2]] == k2;
  }

  /** The bounds MarkPartBounds leaves after going through islands: an
      island without a part-wise link into it is the first of its part,
      one without a link out of it the last; a later island overwrites
      an earlier one. */
  function BoundsOf(kinds: seq<NodeKind>, across: Successors, acrossFrom: Successors,
                    ts: seq<Option<TypesettingInfo>>, islands: seq<Handle>, count: nat): (b: seq<Bounds>)
    requires |across| == |kinds| && |acrossFrom| == |kinds|
    requires PartsBelow(kinds, ts, count) && AllIslands(kinds, islands)
    ensures |b| == count
  {
    if islands == [] then Filled(Bounds(None, None), count)
    else
      var n := |islands| - 1;
      var h := islands[n];
      assert h in islands && forall x :: x in islands[..n] ==> x in islands;
      var b := BoundsOf(kinds, across, acrossFrom, ts, islands[..n], count);
      var p := PartOf(ts, h);
      b[p := Bounds(if acrossFrom[h].None? then Some(h) else b[p].first,
                    if across[h].None? then Some(h) else b[p].last)]
  }

  /** What the bounds say: the first (last) island of part p is an island
      of p without a part-wise link into (out of) it, and there is one
      whenever p has such an island. */
  ghost predicate BoundsMean(kinds: seq<NodeKind>, across: Successors, acrossFrom: Successors,
                             ts: seq<Option<TypesettingInfo>>, islands: seq<Handle>, b: seq<Bounds>)
    requires |across| == |kinds| && |acrossFrom| == |kinds|
    requires PartsBelow(kinds, ts, |b|) && AllIslands(kinds, islands)
  {
    forall p :: 0 <= p < |b| ==>
      && (b[p].first.Some? ==> var h := b[p].first.value;
            h in islands && acrossFrom[h].None? && PartOf(ts, h) == p)
      && (b[p].first.None? ==> forall h :: h in islands && acrossFrom[h].None? ==> PartOf(ts, h) != p)
      && (b[p].last.Some? ==> var h := b[p].last.value;
            h in islands && across[h].None? && PartOf(ts, h) == p)
      && (b[p].last.None? ==> forall h :: h in islands && across[h].None? ==> PartOf(ts, h) != p)
  }

  lemma {:induction false} BoundsAre(kinds: seq<NodeKind>, across: Successors, acrossFrom: Successors,
                                     ts: seq<Option<TypesettingInfo>>, islands: seq<Handle>, count: nat)
    requires |across| == |kinds| && |acrossFrom| == |kinds|
    requires PartsBelow(kinds, ts, count) && AllIslands(kinds, islands)
    ensures BoundsMean(kinds, across, acrossFrom, ts, islands, BoundsOf(kinds, across, acrossFrom, ts, islands, count))
  {
    if islands != [] {
      var n := |islands| - 1;
      assert islands == islands[..n] + [islands[n]];
      assert forall x :: x in islands[..n] ==> x in islands;
      BoundsAre(kinds, across, acrossFrom, ts, islands[..n], count);
    }
  }

  /** MarkPartBounds: one pass over the islands. */
  method MarkPartBounds(kinds: seq<NodeKind>, across: Successors, acrossFrom: Successors,
                        ts: seq<Option<TypesettingInfo>>, islands: seq<Handle>, count: nat)
    returns (bounds: seq<Bounds>)
    requires |across| == |kinds| && |acrossFrom| == |kinds|
    requires PartsBelow(kinds, ts, count) && AllIslands(kinds, islands)
    ensures bounds == BoundsOf(kinds, across, acrossFrom, ts, islands, count)
  {
    bounds := Filled(Bounds(None, None), count);
    for i := 0 to |islands|
      invariant AllIslands(kinds, islands[..i])
      invariant bounds == BoundsOf(kinds, across, acrossFrom, ts, islands[..i], count)
    {
      var current := islands[i];
      assert islands[..i + 1][..i] == islands[..i];
      assert current in islands && forall h :: h in islands[..i + 1] ==> h in islands;
      var p := ts[current].value.partID;
      if acrossFrom[current].None? {
        bounds := bounds[p := bounds[p].(first := Some(current))];
      }
      if across[current].None? {
        bounds := bounds[p := bounds[p].(last := Some(current))];
      }
    }
    assert islands[..|islands|] == islands;
  }

  /** Once the parts have been numbered from the strands, every part has
      both a first and a last island, so the instant ranges read from
      them never meet a missing bound. */
  lemma BoundsComplete(kinds: seq<NodeKind>, across: Successors, acrossFrom: Successors, down: Successors,
                       islands: seq<Handle>, ts0: seq<Option<TypesettingInfo>>, tagged: seq<Option<TypesettingInfo>>,
                       order: seq<nat>)
    requires Strands(kinds, across, acrossFrom, down) && ListsIslands(kinds, islands)
    requires Typeset(kinds, ts0) && |tagged| == |kinds|
    requires TaggedBy(kinds, across, acrossFrom, down, ts0, tagged, Origins(islands, acrossFrom))
    requires PartsBelow(kinds, tagged, |Origins(islands, acrossFrom)|) && AllIslands(kinds, islands)
    requires PartOrder.IsOrdering(|Origins(islands, acrossFrom)|, order)
    ensures var count := |Origins(islands, acrossFrom)|;
      var ts := Renumbered(kinds, tagged, PartOrder.Inverse(count, order));
      PartsBelow(kinds, ts, count) &&
      forall p :: 0 <= p < count ==>
        var b := BoundsOf(kinds, across, acrossFrom, ts, islands, count)[p];
        b.first.Some? && b.last.Some?
  {
    var origins := Origins(islands, acrossFrom);
    var count := |origins|;
    var rank := PartOrder.Inverse(count, order);
    var ts := Renumbered(kinds, tagged, rank);
    RenumberedBelow(kinds, tagged, rank);
    var b := BoundsOf(kinds, across, acrossFrom, ts, islands, count);
    BoundsAre(kinds, across, acrossFrom, ts, islands, count);
    PartsOnto(kinds, across, acrossFrom, down, islands, ts0, tagged, order);
    OriginsAre(islands, acrossFrom);
    forall p | 0 <= p < count
      ensures b[p].first.Some? && b[p].last.Some?
    {
      var o := origins[order[p]];
      assert o in origins;
      var e := Last(across, o);
      StrandEnd(kinds, across, acrossFrom, down, o);
      FinalPart(kinds, across, acrossFrom, down, islands, ts0, tagged, rank, e);
      FinalPart(kinds, across, acrossFrom, down, islands, ts0, tagged, rank, o);
      OriginIsOwnStrand(acrossFrom, o);
      BoundsFound(kinds, across, acrossFrom, ts, islands, b, p, o, e);
    }
  }

  /** A part with both a strand start and a strand end among the islands
      has both bounds. */
  lemma BoundsFound(kinds: seq<NodeKind>, across: Successors, acrossFrom: Successors,
                    ts: seq<Option<TypesettingInfo>>, islands: seq<Handle>, b: seq<Bounds>, p: nat, o: Handle, e: Handle)
    requires |across| == |kinds| && |acrossFrom| == |kinds|
    requires PartsBelow(kinds, ts, |b|) && AllIslands(kinds, islands)
    requires BoundsMean(kinds, across, acrossFrom, ts, islands, b) && p < |b|
    requires o in islands && o < |kinds| && kinds[o].Island? && acrossFrom[o].None? && PartOf(ts, o) == p
    requires e in islands && e < |kinds| && kinds[e].Island? && across[e].None? && PartOf(ts, e) == p
    ensures b[p].first.Some? && b[p].last.Some?
  {
  }

  /** Renumbering by a permutation keeps the parts below the count. */
  lemma RenumberedBelow(kinds: seq<NodeKind>, ts: seq<Option<TypesettingInfo>>, rank: seq<nat>)
    requires PartsBelow(kinds, ts, |rank|) && forall p :: 0 <= p < |rank| ==> rank[p] < |rank|
    ensures PartsBelow(kinds, Renumbered(kinds, ts, rank), |rank|)
  {
  }

  /** The end of o's strand is an island on it, without a link out. */
  lemma StrandEnd(kinds: seq<NodeKind>, across: Successors, acrossFrom: Successors, down: Successors, o: Handle)
    requires Strands(kinds, across, acrossFrom, down)
    requires o < |kinds| && kinds[o].Island? && acrossFrom[o].None?
    ensures var e := Last(across, o);
      kinds[e].Island? && across[e].None? && Ends(acrossFrom, e) && Last(acrossFrom, e) == o
  {
    var c := Chain(across, o);
    var i :| 0 <= i < |c| && c[i] == Last(across, o);
    StrandForward(kinds, across, acrossFrom, down, o, i);
  }

  /** How the leading-edge sweep ended. Done: the edge emptied. Stalled:
      a whole sweep over the edge changed nothing, so the sweep would be
      repeated unchanged forever. OutOfFuel: the budget of steps ran out
      first. */
  datatype Outcome = Done | Stalled | OutOfFuel

  /** ts with the instant of every island listed in members set to id. */
  function WithInstant(ts: seq<Option<TypesettingInfo>>, members: seq<Handle>, id: int): (r: seq<Option<TypesettingInfo>>)
    ensures |r| == |ts|
  {
    seq(|ts|, h requires 0 <= h < |ts| =>
      if h in members && ts[h].Some? then Some(ts[h].value.(instantID := id)) else ts[h])
  }

  lemma WithInstantStep(ts: seq<Option<TypesettingInfo>>, members: seq<Handle>, m: nat, id: int)
    requires m < |members| && members[m] < |ts| && ts[members[m]].Some?
    ensures WithInstant(ts, members[..m + 1], id) ==
      WithInstant(ts, members[..m], id)[members[m] := Some(ts[members[m]].value.(instantID := id))]
  {
    assert members[..m + 1] == members[..m] + [members[m]];
  }

  /** The part-wise predecessors of the members of a group, none where a
      member starts its part. */
  function Penultimates(acrossFrom: Successors, group: seq<Handle>): (pen: seq<Option<Handle>>)
    requires forall j :: 0 <= j < |group| ==> group[j] < |acrossFrom|
    ensures |pen| == |group|
  {
    seq(|group|, j requires 0 <= j < |group| => acrossFrom[group[j]])
  }

  /** The penultimate group loop: each member's backward part-wise Find. */
  method FindPenultimates(acrossFrom: Successors, group: seq<Handle>) returns (pen: seq<Option<Handle>>)
    requires forall j :: 0 <= j < |group| ==> group[j] < |acrossFrom|
    ensures |pen| == |group| && forall j :: 0 <= j < |group| ==> pen[j] == acrossFrom[group[j]]
    ensures pen == Penultimates(acrossFrom, group)
  {
    pen := [];
    for j := 0 to |group|
      invariant |pen| == j && forall j' :: 0 <= j' < j ==> pen[j'] == acrossFrom[group[j']]
    {
      pen := pen + [acrossFrom[group[j]]];
    }
  }

  /** A group may advance when each member's part-wise predecessor, where
      it has one, is on the leading edge. */
  predicate MayAdvance(edge: seq<Handle>, pen: seq<Option<Handle>>) {
    forall j :: 0 <= j < |pen| && pen[j].Some? ==> pen[j].value in edge
  }

  /** The GroupMayAdvance loop, with its early exits. */
  method GroupMayAdvance(edge: seq<Handle>, pen: seq<Option<Handle>>) returns (may: bool)
    ensures may <==> MayAdvance(edge, pen)
  {
    may := true;
    var j := 0;
    while j < |pen| && may
      invariant 0 <= j <= |pen|
      invariant may <==> forall j' :: 0 <= j' < j && pen[j'].Some? ==> pen[j'].value in edge
    {
      if pen[j].Some? {
        var found := false;
        var k := 0;
        while k < |edge| && !found
          invariant 0 <= k <= |edge|
          invariant found <==> pen[j].value in edge[..k]
        {
          if edge[k] == pen[j].value {
            found := true;
          }
          assert edge[..k + 1] == edge[..k] + [edge[k]];
          k := k + 1;
        }
        assert edge[..|edge|] == edge;
        if !found {
          may := false;
        }
      }
      j := j + 1;
    }
  }

  /** The edge with the first occurrence of p replaced by x; unchanged
      when p is not on it. */
  function ReplaceFirst(edge: seq<Handle>, p: Handle, x: Handle): (r: seq<Handle>)
    ensures |r| == |edge|
  {
    if p in edge then edge[PartOrder.IndexOf(edge, p) := x] else edge
  }

  /** The leading edge after a group advances: the members are taken in
      order; one without a predecessor is appended, one with a predecessor
      takes the place of the first occurrence of it. */
  function Advanced(edge: seq<Handle>, group: seq<Handle>, pen: seq<Option<Handle>>): (r: seq<Handle>)
    requires |pen| == |group|
    ensures |edge| <= |r| <= |edge| + |group|
    decreases |group|
  {
    if group == [] then edge
    else Advanced(if pen[0].None? then edge + [group[0]] else ReplaceFirst(edge, pen[0].value, group[0]),
                  group[1..], pen[1..])
  }

  lemma IndexOfFirst(s: seq<nat>, x: nat, k: nat)
    requires k < |s| && s[k] == x && x !in s[..k]
    ensures PartOrder.IndexOf(s, x) == k
  {
    var i := PartOrder.IndexOf(s, x);
  }

  /** The adjacency search of an advance: the first entry equal to p, if
      any, is replaced by x. */
  method ReplaceOnEdge(edge0: seq<Handle>, p: Handle, x: Handle) returns (edge: seq<Handle>)
    ensures edge == ReplaceFirst(edge0, p, x)
  {
    edge := edge0;
    var k := 0;
    while k < |edge| && edge[k] != p
      invariant 0 <= k <= |edge| && p !in edge[..k]
    {
      assert edge[..k + 1] == edge[..k] + [edge[k]];
      k := k + 1;
    }
    if k < |edge| {
      IndexOfFirst(edge, p, k);
      edge := edge[k := x];
    } else {
      assert edge[..k] == edge;
    }
  }

  /** The advancing loop of the leading edge: each member takes its place
      on the edge and gets the new instant. */
  method AdvanceGroup(edge0: seq<Handle>, group: seq<Handle>, pen: seq<Option<Handle>>,
                      ts0: seq<Option<TypesettingInfo>>, id: int)
    returns (edge: seq<Handle>, ts: seq<Option<TypesettingInfo>>)
    requires |pen| == |group|
    requires forall j :: 0 <= j < |group| ==> group[j] < |ts0| && ts0[group[j]].Some?
    ensures edge == Advanced(edge0, group, pen)
    ensures ts == WithInstant(ts0, group, id)
  {
    edge, ts := edge0, ts0;
    for j := 0 to |group|
      invariant Advanced(edge, group[j..], pen[j..]) == Advanced(edge0, group, pen)
      invariant ts == WithInstant(ts0, group[..j], id)
    {
      AdvancedStep(edge, group, pen, j);
      if pen[j].None? {
        edge := edge + [group[j]];
      } else {
        edge := ReplaceOnEdge(edge, pen[j].value, group[j]);
      }
      WithInstantStep(ts0, group, j, id);
      ts := ts[group[j] := Some(ts[group[j]].value.(instantID := id))];
    }
    assert group[..|group|] == group;
  }

  lemma AdvancedStep(edge: seq<Handle>, group: seq<Handle>, pen: seq<Option<Handle>>, j: nat)
    requires |pen| == |group| && j < |group|
    ensures Advanced(edge, group[j..], pen[j..]) ==
      Advanced(if pen[j].None? then edge + [group[j]] else ReplaceFirst(edge, pen[j].value, group[j]),
               group[j + 1..], pen[j + 1..])
  {
    assert group[j..][1..] == group[j + 1..] && pen[j..][1..] == pen[j + 1..];
  }

  /** Every entry of the edge after an advance was on it before or is a
      member of the group. */
  lemma {:induction false} AdvancedFrom(edge: seq<Handle>, group: seq<Handle>, pen: seq<Option<Handle>>)
    requires |pen| == |group|
    ensures forall x :: x in Advanced(edge, group, pen) ==> x in edge || x in group
    decreases |group|
  {
    if group != [] {
      var e := if pen[0].None? then edge + [group[0]] else ReplaceFirst(edge, pen[0].value, group[0]);
      AdvancedFrom(e, group[1..], pen[1..]);
      assert forall x :: x in group[1..] ==> x in group;
    }
  }

  /** Replacing an entry keeps every other entry on the edge. */
  lemma ReplaceKeeps(edge: seq<Handle>, p: Handle, y: Handle, x: Handle)
    requires x in edge && x != p
    ensures x in ReplaceFirst(edge, p, y)
  {
    var k :| 0 <= k < |edge| && edge[k] == x;
    assert ReplaceFirst(edge, p, y)[k] == x;
  }

  /** An entry that is no member's predecessor stays on the edge. */
  lemma {:induction false} AdvancedKeeps(edge: seq<Handle>, group: seq<Handle>, pen: seq<Option<Handle>>, x: Handle)
    requires |pen| == |group| && x in edge && Some(x) !in pen
    ensures x in Advanced(edge, group, pen)
    decreases |group|
  {
    if group != [] {
      var e := if pen[0].None? then edge + [group[0]] else ReplaceFirst(edge, pen[0].value, group[0]);
      if pen[0].Some? {
        ReplaceKeeps(edge, pen[0].value, group[0], x);
      }
      assert Some(x) !in pen[1..];
      AdvancedKeeps(e, group[1..], pen[1..], x);
    }
  }

  /** When every predecessor is on the edge, no two members have the same
      one and no predecessor is itself a member, every member of the group
      is on the edge after the advance. */
  lemma {:induction false} AdvancedIncludes(edge: seq<Handle>, group: seq<Handle>, pen: seq<Option<Handle>>, x: Handle)
    requires |pen| == |group| && MayAdvance(edge, pen)
    requires forall j :: 0 <= j < |pen| && pen[j].Some? ==> pen[j].value !in group
    requires forall j, j' :: 0 <= j < j' < |pen| && pen[j].Some? ==> pen[j] != pen[j']
    requires x in group
    ensures x in Advanced(edge, group, pen)
    decreases |group|
  {
    var e := if pen[0].None? then edge + [group[0]] else ReplaceFirst(edge, pen[0].value, group[0]);
    if pen[0].Some? {
      assert e[PartOrder.IndexOf(edge, pen[0].value)] == group[0];
    }
    assert group[0] in e;
    if x == group[0] {
      assert Some(group[0]) !in pen[1..] by {
        forall j | 0 <= j < |pen[1..]|
          ensures pen[1..][j] != Some(group[0])
        {
          assert pen[1..][j] == pen[j + 1];
        }
      }
      AdvancedKeeps(e, group[1..], pen[1..], x);
    } else {
      forall j | 0 <= j < |pen[1..]| && pen[1..][j].Some?
        ensures pen[1..][j].value in e
      {
        var v := pen[j + 1].value;
        assert v in edge;
        if pen[0].Some? {
          assert pen[0] != pen[j + 1];
          ReplaceKeeps(edge, pen[0].value, group[0], v);
        }
      }
      assert x in group[1..];
      AdvancedIncludes(e, group[1..], pen[1..], x);
    }
  }

  /** ts differs from ts0 at most in the instants of islands, each of
      them set to one of 0 .. n-1. */
  predicate InstantsBelow(kinds: seq<NodeKind>, ts0: seq<Option<TypesettingInfo>>,
                          ts: seq<Option<TypesettingInfo>>, n: nat) {
    |ts| == |ts0| == |kinds| &&
    forall h :: 0 <= h < |ts| ==>
      || ts[h] == ts0[h]
      || (kinds[h].Island? && ts0[h].Some? && ts[h].Some? &&
          ts[h].value.partID == ts0[h].value.partID && 0 <= ts[h].value.instantID < n)
  }

  /** Giving a group of islands the next instant keeps that shape. */
  lemma InstantsNext(kinds: seq<NodeKind>, ts0: seq<Option<TypesettingInfo>>,
                     ts: seq<Option<TypesettingInfo>>, group: seq<Handle>, n: nat)
    requires InstantsBelow(kinds, ts0, ts, n) && AllIslands(kinds, group)
    ensures InstantsBelow(kinds, ts0, WithInstant(ts, group, n), n + 1)
  {
  }

  /** The instant group the entry x of the edge would advance into: the
      instant of the island after x in its part. */
  ghost function NextGroup(kinds: seq<NodeKind>, across: Successors, acrossFrom: Successors, down: Successors,
                           x: Handle): (group: seq<Handle>)
    requires Columns(kinds, across, acrossFrom, down) && x < |kinds| && kinds[x].Island? && across[x].Some?
    ensures AllIslands(kinds, group) && |group| >= 1
  {
    var c := Chain(down, across[x].value);
    forall h | h in c
      ensures h < |kinds| && kinds[h].Island?
    {
      var i :| 0 <= i < |c| && c[i] == h;
      IslandChain(kinds, down, across[x].value, i);
    }
    c
  }

  /** An entry of the edge that can neither be removed nor advanced. */
  ghost predicate Blocked(kinds: seq<NodeKind>, across: Successors, acrossFrom: Successors, down: Successors,
                          edge: seq<Handle>, x: Handle)
    requires Columns(kinds, across, acrossFrom, down) && x < |kinds| && kinds[x].Island?
  {
    across[x].Some? &&
    !MayAdvance(edge, Penultimates(acrossFrom, NextGroup(kinds, across, acrossFrom, down, x)))
  }

  /** The first instant: top and the islands below it get instant 0 and
      form the leading edge. */
  method FirstInstant(kinds: seq<NodeKind>, across: Successors, acrossFrom: Successors, down: Successors,
                      ts0: seq<Option<TypesettingInfo>>, top: Handle)
    returns (edge: seq<Handle>, ts: seq<Option<TypesettingInfo>>, parts: seq<nat>)
    requires Columns(kinds, across, acrossFrom, down) && Typeset(kinds, ts0)
    requires top < |kinds| && kinds[top].Island?
    ensures edge == Chain(down, top) && AllIslands(kinds, edge)
    ensures ts == WithInstant(ts0, edge, 0) && parts == [|edge|]
  {
    edge := Follow(down, top);
    ts := ts0;
    for i := 0 to |edge|
      invariant ts == WithInstant(ts0, edge[..i], 0)
    {
      IslandChain(kinds, down, top, i);
      WithInstantStep(ts0, edge, i, 0);
      ts := ts[edge[i] := Some(ts[edge[i]].value.(instantID := 0))];
    }
    assert edge[..|edge|] == edge;
    parts := [|edge|];
    forall h | h in edge
      ensures h < |kinds| && kinds[h].Island?
    {
      var i :| 0 <= i < |edge| && edge[i] == h;
      IslandChain(kinds, down, top, i);
    }
  }

  /** ts0 with the instants the groups were given, in order: the members
      of group k get instant k, a later group's instant overriding an
      earlier one's. */
  function Stamped(ts0: seq<Option<TypesettingInfo>>, groups: seq<seq<Handle>>): (r: seq<Option<TypesettingInfo>>)
    ensures |r| == |ts0|
    decreases |groups|
  {
    if groups == [] then ts0
    else
      var n := |groups| - 1;
      WithInstant(Stamped(ts0, groups[..n]), groups[n], n)
  }

  /** h is a member of one of the groups: the sweep gave it an instant. */
  ghost predicate Given(groups: seq<seq<Handle>>, h: Handle) {
    exists k :: 0 <= k < |groups| && h in groups[k]
  }

  /** No handle is a member of two of the groups. */
  ghost predicate Once(groups: seq<seq<Handle>>) {
    forall k, k', h :: 0 <= k < k' < |groups| && h in groups[k] ==> h !in groups[k']
  }

  /** What the stamping leaves at h: what ts0 had when no group holds h,
      otherwise ts0's information with the instant of one of the groups
      holding h. */
  lemma {:induction false} StampedAt(ts0: seq<Option<TypesettingInfo>>, groups: seq<seq<Handle>>, h: Handle)
    requires h < |ts0|
    ensures ts0[h].None? ==> Stamped(ts0, groups)[h].None?
    ensures !Given(groups, h) ==> Stamped(ts0, groups)[h] == ts0[h]
    ensures Given(groups, h) && ts0[h].Some? ==>
      exists k :: 0 <= k < |groups| && h in groups[k] && Stamped(ts0, groups)[h] == Some(ts0[h].value.(instantID := k))
    decreases |groups|
  {
    if groups != [] {
      var n := |groups| - 1;
      var prefix := groups[..n];
      StampedAt(ts0, prefix, h);
      assert Stamped(ts0, groups) == WithInstant(Stamped(ts0, prefix), groups[n], n);
      if h in groups[n] {
        if ts0[h].Some? {
          if Given(prefix, h) {
            var k :| 0 <= k < |prefix| && h in prefix[k] && Stamped(ts0, prefix)[h] == Some(ts0[h].value.(instantID := k));
          }
          assert 0 <= n < |groups| && h in groups[n] && Stamped(ts0, groups)[h] == Some(ts0[h].value.(instantID := n));
        }
      } else if Given(prefix, h) {
        var k :| 0 <= k < |prefix| && h in prefix[k];
        assert prefix[k] == groups[k];
        if ts0[h].Some? {
          var k' :| 0 <= k' < |prefix| && h in prefix[k'] && Stamped(ts0, prefix)[h] == Some(ts0[h].value.(instantID := k'));
          assert prefix[k'] == groups[k'];
        }
      } else {
        forall k | 0 <= k < |groups|
          ensures h !in groups[k]
        {
          if k < n {
            assert prefix[k] == groups[k];
          }
        }
      }
    }
  }

  /** When no handle is in two groups, a member of group k has instant k. */
  lemma OnceInstant(ts0: seq<Option<TypesettingInfo>>, groups: seq<seq<Handle>>, h: Handle, k: nat)
    requires Once(groups) && k < |groups| && h in groups[k] && h < |ts0| && ts0[h].Some?
    ensures Stamped(ts0, groups)[h] == Some(ts0[h].value.(instantID := k))
  {
    StampedAt(ts0, groups, h);
    var k' :| 0 <= k' < |groups| && h in groups[k'] && Stamped(ts0, groups)[h] == Some(ts0[h].value.(instantID := k'));
  }

  /** group is one instant group: the chain of islands below its first
      member, which is an island. */
  ghost predicate IsGroup(kinds: seq<NodeKind>, across: Successors, acrossFrom: Successors, down: Successors,
                          group: seq<Handle>)
    requires Columns(kinds, across, acrossFrom, down)
  {
    && |group| >= 1 && group[0] < |kinds| && kinds[group[0]].Island?
    && group == Chain(down, group[0]) && AllIslands(kinds, group)
  }

  /** The log of the sweep: groups[k] is the group given instant k and
      parts[k] is its size; the first group is top's. */
  ghost predicate Logged(kinds: seq<NodeKind>, across: Successors, acrossFrom: Successors, down: Successors,
                         top: Handle, parts: seq<nat>, groups: seq<seq<Handle>>)
    requires Columns(kinds, across, acrossFrom, down) && top < |kinds| && kinds[top].Island?
  {
    && |groups| == |parts| >= 1 && groups[0] == Chain(down, top)
    && forall k :: 0 <= k < |groups| ==> LoggedAt(kinds, across, acrossFrom, down, parts, groups, k)
  }

  /** Group k is an instant group and parts[k] is its size. */
  ghost predicate LoggedAt(kinds: seq<NodeKind>, across: Successors, acrossFrom: Successors, down: Successors,
                           parts: seq<nat>, groups: seq<seq<Handle>>, k: nat)
    requires Columns(kinds, across, acrossFrom, down) && k < |groups| && k < |parts|
  {
    IsGroup(kinds, across, acrossFrom, down, groups[k]) && parts[k] == |groups[k]|
  }

  /** A member of a later group that has an island before it in its part
      was given its instant after that island was given one. */
  ghost predicate Preceded(acrossFrom: Successors, groups: seq<seq<Handle>>) {
    forall k, j :: 1 <= k < |groups| && 0 <= j < |groups[k]| ==> PrecededAt(acrossFrom, groups, k, j)
  }

  /** Member j of group k, if it has an island before it in its part,
      was numbered after that island. */
  ghost predicate PrecededAt(acrossFrom: Successors, groups: seq<seq<Handle>>, k: nat, j: nat)
    requires k < |groups| && j < |groups[k]|
  {
    groups[k][j] < |acrossFrom| && acrossFrom[groups[k][j]].Some? ==>
      exists k' :: 0 <= k' < k && acrossFrom[groups[k][j]].value in groups[k']
  }

  /** h is still on the edge, or its part ends at it, or the island after
      it in its part has been given an instant. */
  ghost predicate Settled(across: Successors, groups: seq<seq<Handle>>, edge: seq<Handle>, h: Handle) {
    h in edge || (h < |across| && (across[h].None? || Given(groups, across[h].value)))
  }

  /** Every entry of the edge has been numbered. */
  ghost predicate EdgeGiven(groups: seq<seq<Handle>>, edge: seq<Handle>) {
    forall i :: 0 <= i < |edge| ==> Given(groups, edge[i])
  }

  /** Every numbered island is covered. */
  ghost predicate Covered(across: Successors, groups: seq<seq<Handle>>, edge: seq<Handle>) {
    forall k, j :: 0 <= k < |groups| && 0 <= j < |groups[k]| ==> CoveredAt(across, groups, edge, k, j)
  }

  /** Member j of group k is settled. */
  ghost predicate CoveredAt(across: Successors, groups: seq<seq<Handle>>, edge: seq<Handle>, k: nat, j: nat)
    requires k < |groups| && j < |groups[k]|
  {
    Settled(across, groups, edge, groups[k][j])
  }

  /** What AssignInstantIDs keeps of typesetting ts0: every island keeps
      typesetting information, and ts is ts0 with the instants of the
      logged groups, in order, so only islands' instants have changed,
      each to one of 0 .. |parts|-1; instant 0 is top's group, parts[k]
      is the size of group k, and an island of a later group whose part
      has an island before it was numbered after that one. */
  ghost predicate InstantsNumbered(kinds: seq<NodeKind>, across: Successors, acrossFrom: Successors, down: Successors,
                                   ts0: seq<Option<TypesettingInfo>>, top: Handle,
                                   ts: seq<Option<TypesettingInfo>>, parts: seq<nat>, groups: seq<seq<Handle>>)
    requires Columns(kinds, across, acrossFrom, down) && top < |kinds| && kinds[top].Island?
  {
    && Typeset(kinds, ts) && InstantsBelow(kinds, ts0, ts, |parts|)
    && Logged(kinds, across, acrossFrom, down, top, parts, groups)
    && ts == Stamped(ts0, groups) && Preceded(acrossFrom, groups)
  }

  /** What holds of the sweep's state throughout: the instants so far
      are numbered and the edge holds islands that have been numbered.
      (When the links form strands, Covered holds as well.) */
  ghost predicate SweepState(kinds: seq<NodeKind>, across: Successors, acrossFrom: Successors, down: Successors,
                             ts0: seq<Option<TypesettingInfo>>, top: Handle,
                             ts: seq<Option<TypesettingInfo>>, parts: seq<nat>, groups: seq<seq<Handle>>,
                             edge: seq<Handle>)
    requires Columns(kinds, across, acrossFrom, down) && top < |kinds| && kinds[top].Island?
  {
    && InstantsNumbered(kinds, across, acrossFrom, down, ts0, top, ts, parts, groups)
    && AllIslands(kinds, edge) && EdgeGiven(groups, edge)
  }

  /** The state after the first instant. */
  lemma FirstState(kinds: seq<NodeKind>, across: Successors, acrossFrom: Successors, down: Successors,
                   ts0: seq<Option<TypesettingInfo>>, top: Handle, edge: seq<Handle>)
    requires Columns(kinds, across, acrossFrom, down) && Typeset(kinds, ts0)
    requires top < |kinds| && kinds[top].Island?
    requires edge == Chain(down, top) && AllIslands(kinds, edge)
    ensures SweepState(kinds, across, acrossFrom, down, ts0, top, WithInstant(ts0, edge, 0), [|edge|], [edge], edge)
    ensures Covered(across, [edge], edge)
  {
    assert [edge][..0] == [];
    InstantsNext(kinds, ts0, ts0, edge, 0);
    forall i | 0 <= i < |edge|
      ensures Given([edge], edge[i])
    {
      assert edge[i] in [edge][0];
    }
  }

  /** Adding a group keeps every handle the groups held. */
  lemma GivenMore(groups: seq<seq<Handle>>, group: seq<Handle>, h: Handle)
    requires Given(groups, h) || h in group
    ensures Given(groups + [group], h)
  {
    if h in group {
      assert (groups + [group])[|groups|] == group;
    } else {
      var k :| 0 <= k < |groups| && h in groups[k];
      assert (groups + [group])[k] == groups[k];
    }
  }

  /** No two members of a group of distinct islands share a part-wise
      predecessor. */
  lemma PenultimatesDistinct(kinds: seq<NodeKind>, across: Successors, acrossFrom: Successors, down: Successors,
                             group: seq<Handle>)
    requires Strands(kinds, across, acrossFrom, down) && AllIslands(kinds, group)
    requires forall i, j :: 0 <= i < j < |group| ==> group[i] != group[j]
    ensures var pen := Penultimates(acrossFrom, group);
      forall j, j' :: 0 <= j < j' < |pen| && pen[j].Some? ==> pen[j] != pen[j']
  {
  }

  /** An advance loses an entry of the edge, or a member of the group,
      only by putting the member it precedes in its place. */
  lemma {:induction false} AdvancedCovers(edge: seq<Handle>, group: seq<Handle>, pen: seq<Option<Handle>>, y: Handle)
    requires |pen| == |group| && MayAdvance(edge, pen)
    requires forall j, j' :: 0 <= j < j' < |pen| && pen[j].Some? ==> pen[j] != pen[j']
    requires y in edge || y in group
    ensures y in Advanced(edge, group, pen) || Some(y) in pen
    decreases |group|
  {
    if group != [] && !(y in edge && pen[0] == Some(y)) {
      var e := if pen[0].None? then edge + [group[0]] else ReplaceFirst(edge, pen[0].value, group[0]);
      forall j | 0 <= j < |pen[1..]| && pen[1..][j].Some?
        ensures pen[1..][j].value in e
      {
        assert pen[1..][j] == pen[j + 1];
        if pen[0].Some? {
          assert pen[0] != pen[j + 1];
          ReplaceKeeps(edge, pen[0].value, group[0], pen[j + 1].value);
        }
      }
      forall j, j' | 0 <= j < j' < |pen[1..]| && pen[1..][j].Some?
        ensures pen[1..][j] != pen[1..][j']
      {
        assert pen[1..][j] == pen[j + 1] && pen[1..][j'] == pen[j' + 1];
      }
      if y in edge {
        if pen[0].Some? {
          ReplaceKeeps(edge, pen[0].value, group[0], y);
        }
      } else if y == group[0] {
        if pen[0].Some? {
          assert e[PartOrder.IndexOf(edge, pen[0].value)] == group[0];
        }
      } else {
        assert y in group[1..];
      }
      AdvancedCovers(e, group[1..], pen[1..], y);
      if Some(y) in pen[1..] {
        var j :| 0 <= j < |pen[1..]| && pen[1..][j] == Some(y);
        assert pen[j + 1] == Some(y);
      }
    } else if group != [] {
      assert pen[0] == Some(y);
    }
  }

  /** After an advance, an island that was on the edge or is a member of
      the group is covered. */
  lemma AdvanceCovers(kinds: seq<NodeKind>, across: Successors, acrossFrom: Successors, down: Successors,
                      groups: seq<seq<Handle>>, edge: seq<Handle>, group: seq<Handle>, h: Handle)
    requires Strands(kinds, across, acrossFrom, down) && AllIslands(kinds, group)
    requires forall i, j :: 0 <= i < j < |group| ==> group[i] != group[j]
    requires MayAdvance(edge, Penultimates(acrossFrom, group))
    requires h in edge || h in group
    ensures Settled(across, groups + [group], Advanced(edge, group, Penultimates(acrossFrom, group)), h)
  {
    var pen := Penultimates(acrossFrom, group);
    PenultimatesDistinct(kinds, across, acrossFrom, down, group);
    AdvancedCovers(edge, group, pen, h);
    if Some(h) in pen {
      var j :| 0 <= j < |pen| && pen[j] == Some(h);
      assert acrossFrom[group[j]] == Some(h);
      assert across[h] == Some(group[j]);
      GivenMore(groups, group, group[j]);
    }
  }

  /** An advance leaves only islands on the edge. */
  lemma AdvancedIslands(kinds: seq<NodeKind>, edge: seq<Handle>, group: seq<Handle>, pen: seq<Option<Handle>>)
    requires |pen| == |group| && AllIslands(kinds, edge) && AllIslands(kinds, group)
    ensures AllIslands(kinds, Advanced(edge, group, pen))
  {
    var e := Advanced(edge, group, pen);
    AdvancedFrom(edge, group, pen);
    forall i | 0 <= i < |e|
      ensures e[i] < |kinds| && kinds[e[i]].Island?
    {
      assert e[i] in e;
      if e[i] in edge {
        var k :| 0 <= k < |edge| && edge[k] == e[i];
      } else {
        var k :| 0 <= k < |group| && group[k] == e[i];
      }
    }
  }

  /** Logging one more group keeps the log's shape. */
  lemma LoggedNext(kinds: seq<NodeKind>, across: Successors, acrossFrom: Successors, down: Successors,
                   top: Handle, parts: seq<nat>, groups: seq<seq<Handle>>, group: seq<Handle>)
    requires Columns(kinds, across, acrossFrom, down) && top < |kinds| && kinds[top].Island?
    requires Logged(kinds, across, acrossFrom, down, top, parts, groups)
    requires IsGroup(kinds, across, acrossFrom, down, group)
    ensures Logged(kinds, across, acrossFrom, down, top, parts + [|group|], groups + [group])
  {
    var parts', groups' := parts + [|group|], groups + [group];
    forall k | 0 <= k < |groups'|
      ensures LoggedAt(kinds, across, acrossFrom, down, parts', groups', k)
    {
      if k < |groups| {
        assert LoggedAt(kinds, across, acrossFrom, down, parts, groups, k);
        assert groups'[k] == groups[k] && parts'[k] == parts[k];
      }
    }
  }

  /** A group whose members' predecessors are all numbered keeps the
      order of numbering when it is logged. */
  lemma PrecededNext(acrossFrom: Successors, groups: seq<seq<Handle>>, group: seq<Handle>)
    requires Preceded(acrossFrom, groups)
    requires forall j :: 0 <= j < |group| && group[j] < |acrossFrom| && acrossFrom[group[j]].Some? ==>
      Given(groups, acrossFrom[group[j]].value)
    ensures Preceded(acrossFrom, groups + [group])
  {
    var groups' := groups + [group];
    forall k, j | 1 <= k < |groups'| && 0 <= j < |groups'[k]|
      ensures PrecededAt(acrossFrom, groups', k, j)
    {
      if groups'[k][j] < |acrossFrom| && acrossFrom[groups'[k][j]].Some? {
        if k == |groups| {
          assert groups'[k] == group;
          var k' :| 0 <= k' < |groups| && acrossFrom[group[j]].value in groups[k'];
          assert groups'[k'] == groups[k'];
        } else {
          assert groups'[k] == groups[k];
          assert PrecededAt(acrossFrom, groups, k, j);
          var k' :| 0 <= k' < k && acrossFrom[groups[k][j]].value in groups[k'];
          assert groups'[k'] == groups[k'];
        }
      }
    }
  }

  /** After an advance every entry of the edge is numbered. */
  lemma EdgeGivenNext(groups: seq<seq<Handle>>, edge: seq<Handle>, group: seq<Handle>, pen: seq<Option<Handle>>)
    requires |pen| == |group| && EdgeGiven(groups, edge)
    ensures EdgeGiven(groups + [group], Advanced(edge, group, pen))
  {
    var edge' := Advanced(edge, group, pen);
    AdvancedFrom(edge, group, pen);
    forall i | 0 <= i < |edge'|
      ensures Given(groups + [group], edge'[i])
    {
      assert edge'[i] in edge';
      if edge'[i] in edge {
        var m :| 0 <= m < |edge| && edge[m] == edge'[i];
      }
      GivenMore(groups, group, edge'[i]);
    }
  }

  /** After an advance every numbered island is covered. */
  lemma CoveredNext(kinds: seq<NodeKind>, across: Successors, acrossFrom: Successors, down: Successors,
                    groups: seq<seq<Handle>>, edge: seq<Handle>, group: seq<Handle>)
    requires Strands(kinds, across, acrossFrom, down) && AllIslands(kinds, group)
    requires forall i, j :: 0 <= i < j < |group| ==> group[i] != group[j]
    requires MayAdvance(edge, Penultimates(acrossFrom, group))
    requires Covered(across, groups, edge)
    ensures Covered(across, groups + [group], Advanced(edge, group, Penultimates(acrossFrom, group)))
  {
    var groups', edge' := groups + [group], Advanced(edge, group, Penultimates(acrossFrom, group));
    forall k, j | 0 <= k < |groups'| && 0 <= j < |groups'[k]|
      ensures CoveredAt(across, groups', edge', k, j)
    {
      var h := groups'[k][j];
      if k == |groups| {
        assert h in group;
        AdvanceCovers(kinds, across, acrossFrom, down, groups, edge, group, h);
      } else {
        assert groups'[k] == groups[k];
        assert CoveredAt(across, groups, edge, k, j);
        if h in edge {
          AdvanceCovers(kinds, across, acrossFrom, down, groups, edge, group, h);
        } else if across[h].Some? {
          GivenMore(groups, group, across[h].value);
        }
      }
    }
  }

  /** The state after an advance. */
  lemma AdvanceKeepsState(kinds: seq<NodeKind>, across: Successors, acrossFrom: Successors, down: Successors,
                          ts0: seq<Option<TypesettingInfo>>, top: Handle,
                          ts: seq<Option<TypesettingInfo>>, parts: seq<nat>, groups: seq<seq<Handle>>,
                          edge: seq<Handle>, x: Handle)
    requires Columns(kinds, across, acrossFrom, down) && top < |kinds| && kinds[top].Island?
    requires SweepState(kinds, across, acrossFrom, down, ts0, top, ts, parts, groups, edge)
    requires x < |kinds| && kinds[x].Island? && across[x].Some?
    requires MayAdvance(edge, Penultimates(acrossFrom, NextGroup(kinds, across, acrossFrom, down, x)))
    ensures var group := NextGroup(kinds, across, acrossFrom, down, x);
      SweepState(kinds, across, acrossFrom, down, ts0, top, WithInstant(ts, group, |parts|), parts + [|group|],
                 groups + [group], Advanced(edge, group, Penultimates(acrossFrom, group)))
  {
    var group := NextGroup(kinds, across, acrossFrom, down, x);
    var pen := Penultimates(acrossFrom, group);
    var groups', edge' := groups + [group], Advanced(edge, group, pen);
    EdgeGivenNext(groups, edge, group, pen);
    assert AllIslands(kinds, edge') by {
      AdvancedIslands(kinds, edge, group, pen);
    }
    assert InstantsBelow(kinds, ts0, WithInstant(ts, group, |parts|), |parts| + 1) by {
      InstantsNext(kinds, ts0, ts, group, |parts|);
    }
    assert Logged(kinds, across, acrossFrom, down, top, parts + [|group|], groups') by {
      LoggedNext(kinds, across, acrossFrom, down, top, parts, groups, group);
    }
    assert WithInstant(ts, group, |parts|) == Stamped(ts0, groups') by {
      assert groups'[..|groups|] == groups;
    }
    assert Preceded(acrossFrom, groups') by {
      forall j | 0 <= j < |group| && group[j] < |acrossFrom| && acrossFrom[group[j]].Some?
        ensures Given(groups, acrossFrom[group[j]].value)
      {
        assert pen[j] == acrossFrom[group[j]];
        var i :| 0 <= i < |edge| && edge[i] == pen[j].value;
      }
      PrecededNext(acrossFrom, groups, group);
    }
  }

  /** When the links form strands, an advance keeps every numbered
      island covered: a numbered island leaves the edge only once the
      next island of its part is numbered. */
  lemma AdvanceKeepsCovered(kinds: seq<NodeKind>, across: Successors, acrossFrom: Successors, down: Successors,
                            groups: seq<seq<Handle>>, edge: seq<Handle>, x: Handle)
    requires Strands(kinds, across, acrossFrom, down) && Covered(across, groups, edge)
    requires x < |kinds| && kinds[x].Island? && across[x].Some?
    requires MayAdvance(edge, Penultimates(acrossFrom, NextGroup(kinds, across, acrossFrom, down, x)))
    ensures var group := NextGroup(kinds, across, acrossFrom, down, x);
      Covered(across, groups + [group], Advanced(edge, group, Penultimates(acrossFrom, group)))
  {
    ChainDistinct(down, across[x].value);
    CoveredNext(kinds, across, acrossFrom, down, groups, edge, NextGroup(kinds, across, acrossFrom, down, x));
  }

  /** The state after an entry whose part has ended is removed. */
  lemma RemoveKeepsState(kinds: seq<NodeKind>, across: Successors, acrossFrom: Successors, down: Successors,
                         ts0: seq<Option<TypesettingInfo>>, top: Handle,
                         ts: seq<Option<TypesettingInfo>>, parts: seq<nat>, groups: seq<seq<Handle>>,
                         edge: seq<Handle>, i: nat)
    requires Columns(kinds, across, acrossFrom, down) && top < |kinds| && kinds[top].Island?
    requires SweepState(kinds, across, acrossFrom, down, ts0, top, ts, parts, groups, edge) && i < |edge|
    requires across[edge[i]].None?
    ensures SweepState(kinds, across, acrossFrom, down, ts0, top, ts, parts, groups, edge[..i] + edge[i + 1..])
    ensures Covered(across, groups, edge) ==> Covered(across, groups, edge[..i] + edge[i + 1..])
  {
    var e := edge[..i] + edge[i + 1..];
    forall k | 0 <= k < |e|
      ensures e[k] < |kinds| && kinds[e[k]].Island? && Given(groups, e[k])
    {
      if k < i {
        assert e[k] == edge[k];
      } else {
        assert e[k] == edge[k + 1];
      }
    }
    forall k, j | 0 <= k < |groups| && 0 <= j < |groups[k]| && Covered(across, groups, edge)
      ensures CoveredAt(across, groups, e, k, j)
    {
      var h := groups[k][j];
      assert CoveredAt(across, groups, edge, k, j);
      if h in edge && h != edge[i] {
        var m :| 0 <= m < |edge| && edge[m] == h;
        if m < i {
          assert e[m] == h;
        } else {
          assert e[m - 1] == h;
        }
      }
    }
  }

  /** The first i entries of the edge are blocked. */
  ghost predicate BlockedBefore(kinds: seq<NodeKind>, across: Successors, acrossFrom: Successors, down: Successors,
                                edge: seq<Handle>, i: nat)
    requires Columns(kinds, across, acrossFrom, down) && AllIslands(kinds, edge) && i <= |edge|
  {
    forall k :: 0 <= k < i ==> Blocked(kinds, across, acrossFrom, down, edge, edge[k])
  }

  /** What one turn at entry i does: an entry whose part has no next
      island is removed; otherwise the instant group of that next island
      advances the edge if it may (the group gets the next instant, and
      is logged with its size), or the entry is blocked and nothing
      changes. */
  ghost predicate Turn(kinds: seq<NodeKind>, across: Successors, acrossFrom: Successors, down: Successors,
                       edge: seq<Handle>, i: nat, ts: seq<Option<TypesettingInfo>>, parts: seq<nat>,
                       groups: seq<seq<Handle>>,
                       edge': seq<Handle>, ts': seq<Option<TypesettingInfo>>, parts': seq<nat>,
                       groups': seq<seq<Handle>>, removed: bool, advanced: bool)
    requires Columns(kinds, across, acrossFrom, down) && AllIslands(kinds, edge) && i < |edge|
  {
    && (removed <==> across[edge[i]].None?)
    && (removed ==> !advanced && edge' == edge[..i] + edge[i + 1..] && ts' == ts && parts' == parts &&
                    groups' == groups)
    && (!removed ==>
      var group := NextGroup(kinds, across, acrossFrom, down, edge[i]);
      var pen := Penultimates(acrossFrom, group);
      && (advanced <==> MayAdvance(edge, pen))
      && (advanced ==> edge' == Advanced(edge, group, pen) && ts' == WithInstant(ts, group, |parts|) &&
                       parts' == parts + [|group|] && groups' == groups + [group])
      && (!advanced ==> edge' == edge && ts' == ts && parts' == parts && groups' == groups &&
                        Blocked(kinds, across, acrossFrom, down, edge, edge[i])))
  }

  /** One turn of the sweep, at entry i of the edge, as Turn describes;
      the sweep's state is kept. */
  method TryEntry(kinds: seq<NodeKind>, across: Successors, acrossFrom: Successors, down: Successors,
                  ghost ts0: seq<Option<TypesettingInfo>>, top: Handle,
                  edge: seq<Handle>, i: nat, ts: seq<Option<TypesettingInfo>>, parts: seq<nat>,
                  ghost groups: seq<seq<Handle>>)
    returns (edge': seq<Handle>, ts': seq<Option<TypesettingInfo>>, parts': seq<nat>,
             ghost groups': seq<seq<Handle>>, removed: bool, advanced: bool)
    requires Columns(kinds, across, acrossFrom, down) && top < |kinds| && kinds[top].Island?
    requires SweepState(kinds, across, acrossFrom, down, ts0, top, ts, parts, groups, edge) && i < |edge|
    ensures SweepState(kinds, across, acrossFrom, down, ts0, top, ts', parts', groups', edge')
    ensures Strands(kinds, across, acrossFrom, down) && Covered(across, groups, edge) ==> Covered(across, groups', edge')
    ensures Turn(kinds, across, acrossFrom, down, edge, i, ts, parts, groups, edge', ts', parts', groups',
                 removed, advanced)
    ensures if removed then |edge'| == |edge| - 1 else |edge'| >= |edge|
    ensures !removed && !advanced ==>
      && edge' == edge && ts' == ts && parts' == parts && groups' == groups
      && (BlockedBefore(kinds, across, acrossFrom, down, edge, i) ==>
          BlockedBefore(kinds, across, acrossFrom, down, edge, i + 1))
  {
    var x := edge[i];
    var next := across[x];
    edge', ts', parts', groups', removed, advanced := edge, ts, parts, groups, false, false;
    if next.None? {
      edge' := edge[..i] + edge[i + 1..];
      removed := true;
      RemoveKeepsState(kinds, across, acrossFrom, down, ts0, top, ts, parts, groups, edge, i);
      return;
    }
    ghost var group0 := NextGroup(kinds, across, acrossFrom, down, x);
    var group := Follow(down, next.value);
    var pen := FindPenultimates(acrossFrom, group);
    advanced := GroupMayAdvance(edge, pen);
    if advanced {
      edge', ts' := AdvanceGroup(edge, group, pen, ts, |parts|);
      parts' := parts + [|group|];
      groups' := groups + [group];
      AdvanceKeepsState(kinds, across, acrossFrom, down, ts0, top, ts, parts, groups, edge, x);
      if Strands(kinds, across, acrossFrom, down) && Covered(across, groups, edge) {
        AdvanceKeepsCovered(kinds, across, acrossFrom, down, groups, edge, x);
      }
    }
  }

  /** What a finished sweep has numbered: top, and with every numbered
      island the next island of its part and the island below it; so
      every island reached from top by those links. */
  ghost predicate NumberedClosed(kinds: seq<NodeKind>, across: Successors, down: Successors, top: Handle,
                                 groups: seq<seq<Handle>>) {
    && Given(groups, top)
    && forall k, j :: 0 <= k < |groups| && 0 <= j < |groups[k]| ==> LinksNumbered(kinds, across, down, groups, k, j)
  }

  /** Member j of group k is an island, and the next island of its part
      and the island below it, where it has them, are numbered. */
  ghost predicate LinksNumbered(kinds: seq<NodeKind>, across: Successors, down: Successors,
                                groups: seq<seq<Handle>>, k: nat, j: nat)
    requires k < |groups| && j < |groups[k]|
  {
    var h := groups[k][j];
    && h < |kinds| && kinds[h].Island? && h < |across| && h < |down|
    && (across[h].Some? ==> Given(groups, across[h].value))
    && (down[h].Some? ==> Given(groups, down[h].value))
  }

  /** When the edge has emptied, the numbered islands are closed under
      the part-wise and instant-wise links. */
  lemma SweepDone(kinds: seq<NodeKind>, across: Successors, acrossFrom: Successors, down: Successors,
                  ts0: seq<Option<TypesettingInfo>>, top: Handle,
                  ts: seq<Option<TypesettingInfo>>, parts: seq<nat>, groups: seq<seq<Handle>>)
    requires Columns(kinds, across, acrossFrom, down) && top < |kinds| && kinds[top].Island?
    requires SweepState(kinds, across, acrossFrom, down, ts0, top, ts, parts, groups, [])
    requires Covered(across, groups, [])
    ensures NumberedClosed(kinds, across, down, top, groups)
  {
    assert top in groups[0];
    forall k, j | 0 <= k < |groups| && 0 <= j < |groups[k]|
      ensures LinksNumbered(kinds, across, down, groups, k, j)
    {
      var h := groups[k][j];
      assert LoggedAt(kinds, across, acrossFrom, down, parts, groups, k);
      assert CoveredAt(across, groups, [], k, j);
      ChainNext(down, groups[k][0], j);
      if down[h].Some? {
        assert groups[k][j + 1] in groups[k];
      }
    }
  }

  /** A handle in a logged group is an island. */
  lemma GivenIsland(kinds: seq<NodeKind>, across: Successors, acrossFrom: Successors, down: Successors,
                    top: Handle, parts: seq<nat>, groups: seq<seq<Handle>>, h: Handle)
    requires Columns(kinds, across, acrossFrom, down) && top < |kinds| && kinds[top].Island?
    requires Logged(kinds, across, acrossFrom, down, top, parts, groups) && Given(groups, h)
    ensures h < |kinds| && kinds[h].Island?
  {
    var k :| 0 <= k < |groups| && h in groups[k];
    assert LoggedAt(kinds, across, acrossFrom, down, parts, groups, k);
    var j :| 0 <= j < |groups[k]| && groups[k][j] == h;
  }

  /** What the sweep leaves in the typesetting: an island it numbered
      keeps its part and has one of the instants handed out, any other
      handle keeps what it had. */
  lemma NumberedBelow(kinds: seq<NodeKind>, across: Successors, acrossFrom: Successors, down: Successors,
                      ts0: seq<Option<TypesettingInfo>>, top: Handle,
                      ts: seq<Option<TypesettingInfo>>, parts: seq<nat>, groups: seq<seq<Handle>>)
    requires Columns(kinds, across, acrossFrom, down) && top < |kinds| && kinds[top].Island?
    requires Typeset(kinds, ts0)
    requires InstantsNumbered(kinds, across, acrossFrom, down, ts0, top, ts, parts, groups)
    ensures forall h: Handle :: Given(groups, h) ==>
      && h < |kinds| && kinds[h].Island? && ts[h].Some? && ts[h].value.partID == ts0[h].value.partID
      && 0 <= ts[h].value.instantID < |parts|
    ensures forall h :: 0 <= h < |kinds| && !Given(groups, h) ==> ts[h] == ts0[h]
  {
    assert |parts| == |groups|;
    forall h: Handle | Given(groups, h)
      ensures && h < |kinds| && kinds[h].Island? && ts[h].Some? && ts[h].value.partID == ts0[h].value.partID
              && 0 <= ts[h].value.instantID < |parts|
    {
      GivenIsland(kinds, across, acrossFrom, down, top, parts, groups, h);
      StampedAt(ts0, groups, h);
    }
    forall h | 0 <= h < |kinds| && !Given(groups, h)
      ensures ts[h] == ts0[h]
    {
      StampedAt(ts0, groups, h);
    }
  }

  /** Every entry of the edge has one of the instants handed out. */
  lemma EdgeNumbered(kinds: seq<NodeKind>, across: Successors, acrossFrom: Successors, down: Successors,
                     ts0: seq<Option<TypesettingInfo>>, top: Handle,
                     ts: seq<Option<TypesettingInfo>>, parts: seq<nat>, groups: seq<seq<Handle>>, edge: seq<Handle>)
    requires Columns(kinds, across, acrossFrom, down) && top < |kinds| && kinds[top].Island?
    requires Typeset(kinds, ts0)
    requires SweepState(kinds, across, acrossFrom, down, ts0, top, ts, parts, groups, edge)
    ensures forall i :: 0 <= i < |edge| ==> ts[edge[i]].Some? && 0 <= ts[edge[i]].value.instantID < |parts|
  {
    NumberedBelow(kinds, across, acrossFrom, down, ts0, top, ts, parts, groups);
    assert EdgeGiven(groups, edge);
  }

  /** When no island is numbered twice and the islands of the first
      instant start their parts, instants grow along every part: a
      numbered island has a smaller instant than the next island of its
      part, where that one is numbered. */
  lemma InstantsIncrease(kinds: seq<NodeKind>, across: Successors, acrossFrom: Successors, down: Successors,
                         ts0: seq<Option<TypesettingInfo>>, top: Handle,
                         ts: seq<Option<TypesettingInfo>>, parts: seq<nat>, groups: seq<seq<Handle>>,
                         edge: seq<Handle>)
    requires Strands(kinds, across, acrossFrom, down) && top < |kinds| && kinds[top].Island?
    requires Typeset(kinds, ts0)
    requires SweepState(kinds, across, acrossFrom, down, ts0, top, ts, parts, groups, edge)
    requires Once(groups)
    requires forall i :: 0 <= i < |Chain(down, top)| ==> acrossFrom[Chain(down, top)[i]].None?
    ensures forall h :: 0 <= h < |kinds| && kinds[h].Island? && Given(groups, h) && across[h].Some? &&
                        Given(groups, across[h].value) ==>
      && ts[h].Some? && ts[across[h].value].Some?
      && ts[h].value.instantID < ts[across[h].value].value.instantID
  {
    forall h | 0 <= h < |kinds| && kinds[h].Island? && Given(groups, h) && across[h].Some? &&
               Given(groups, across[h].value)
      ensures && ts[h].Some? && ts[across[h].value].Some?
              && ts[h].value.instantID < ts[across[h].value].value.instantID
    {
      var y := across[h].value;
      var k :| 0 <= k < |groups| && y in groups[k];
      var j :| 0 <= j < |groups[k]| && groups[k][j] == y;
      assert LoggedAt(kinds, across, acrossFrom, down, parts, groups, k);
      assert acrossFrom[y] == Some(h);
      assert k != 0;
      assert PrecededAt(acrossFrom, groups, k, j);
      var k' :| 0 <= k' < k && h in groups[k'];
      OnceInstant(ts0, groups, h, k');
      OnceInstant(ts0, groups, y, k);
    }
  }

  /** The islands the sweep gave instant k. */
  ghost function GivenInstant(kinds: seq<NodeKind>, ts: seq<Option<TypesettingInfo>>, groups: seq<seq<Handle>>,
                              k: nat): set<Handle> {
    set h | 0 <= h < |kinds| && h < |ts| && Given(groups, h) && ts[h].Some? && ts[h].value.instantID == k
  }

  /** The handles a sequence lists. */
  ghost function Members(s: seq<Handle>): set<Handle> {
    set x | x in s
  }

  /** A sequence without repetitions has as many elements as entries. */
  lemma {:induction false} DistinctCount(s: seq<Handle>)
    requires forall i, j :: 0 <= i < j < |s| ==> s[i] != s[j]
    ensures |Members(s)| == |s|
  {
    if s != [] {
      var rest := s[1..];
      forall i, j | 0 <= i < j < |rest|
        ensures rest[i] != rest[j]
      {
        assert rest[i] == s[i + 1] && rest[j] == s[j + 1];
      }
      DistinctCount(rest);
      assert s == [s[0]] + rest;
      assert s[0] !in rest by {
        forall i | 0 <= i < |rest|
          ensures rest[i] != s[0]
        {
          assert rest[i] == s[i + 1];
        }
      }
      var whole, tail := Members(s), Members(rest);
      assert whole == tail + {s[0]} by {
        forall x: Handle
          ensures x in whole <==> x in tail + {s[0]}
        {
          if x in s && x != s[0] {
            var i :| 0 <= i < |s| && s[i] == x;
            assert rest[i - 1] == x;
          }
        }
      }
      assert s[0] !in tail;
      assert |whole| == |tail| + 1;
    }
  }

  /** When no island is numbered twice, parts[k] is the number of
      islands the sweep gave instant k. */
  lemma PartsCount(kinds: seq<NodeKind>, across: Successors, acrossFrom: Successors, down: Successors,
                   ts0: seq<Option<TypesettingInfo>>, top: Handle,
                   ts: seq<Option<TypesettingInfo>>, parts: seq<nat>, groups: seq<seq<Handle>>, edge: seq<Handle>)
    requires Columns(kinds, across, acrossFrom, down) && top < |kinds| && kinds[top].Island?
    requires Typeset(kinds, ts0)
    requires SweepState(kinds, across, acrossFrom, down, ts0, top, ts, parts, groups, edge)
    requires Once(groups)
    ensures forall k :: 0 <= k < |parts| ==> parts[k] == |GivenInstant(kinds, ts, groups, k)|
  {
    forall k | 0 <= k < |parts|
      ensures parts[k] == |GivenInstant(kinds, ts, groups, k)|
    {
      var g := groups[k];
      assert LoggedAt(kinds, across, acrossFrom, down, parts, groups, k);
      forall h | h in g
        ensures h in GivenInstant(kinds, ts, groups, k)
      {
        var j :| 0 <= j < |g| && g[j] == h;
        OnceInstant(ts0, groups, h, k);
      }
      forall h | h in GivenInstant(kinds, ts, groups, k)
        ensures h in g
      {
        var k' :| 0 <= k' < |groups| && h in groups[k'];
        assert LoggedAt(kinds, across, acrossFrom, down, parts, groups, k');
        var j :| 0 <= j < |groups[k']| && groups[k'][j] == h;
        OnceInstant(ts0, groups, h, k');
      }
      assert GivenInstant(kinds, ts, groups, k) == Members(g);
      ChainDistinct(down, g[0]);
      DistinctCount(g);
    }
  }

  /** AssignInstantIDs' leading-edge sweep, with a budget of fuel turns.
      groups logs the instant groups in the order they were given
      instants 0 .. |parts|-1, parts[k] being the size of group k; the
      first is top's group. Only islands' instants change, and an edge
      left over after a stall is one where every entry is blocked. When
      the links form strands, a finished sweep has numbered top and every
      island reached from it by part-wise or instant-wise links. */
  method LeadingEdge(kinds: seq<NodeKind>, across: Successors, acrossFrom: Successors, down: Successors,
                     ts0: seq<Option<TypesettingInfo>>, top: Handle, fuel: nat)
    returns (ts: seq<Option<TypesettingInfo>>, parts: seq<nat>, edge: seq<Handle>, outcome: Outcome,
             ghost groups: seq<seq<Handle>>)
    requires Columns(kinds, across, acrossFrom, down) && Typeset(kinds, ts0)
    requires top < |kinds| && kinds[top].Island?
    ensures SweepState(kinds, across, acrossFrom, down, ts0, top, ts, parts, groups, edge)
    ensures Strands(kinds, across, acrossFrom, down) ==> Covered(across, groups, edge)
    ensures outcome == Done <==> edge == []
    ensures outcome == Done && Strands(kinds, across, acrossFrom, down) ==> NumberedClosed(kinds, across, down, top, groups)
    ensures outcome == Stalled ==>
      forall k :: 0 <= k < |edge| ==> Blocked(kinds, across, acrossFrom, down, edge, edge[k])
  {
    edge, ts, parts := FirstInstant(kinds, across, acrossFrom, down, ts0, top);
    groups := [edge];
    FirstState(kinds, across, acrossFrom, down, ts0, top, edge);
    var instantID := 1;
    var i, changed, left := 0, false, fuel;
    outcome := Done;
    while edge != []
      invariant SweepState(kinds, across, acrossFrom, down, ts0, top, ts, parts, groups, edge)
      invariant Strands(kinds, across, acrossFrom, down) ==> Covered(across, groups, edge)
      invariant instantID == |parts| && i <= |edge| && outcome == Done
      invariant !changed ==> BlockedBefore(kinds, across, acrossFrom, down, edge, i)
      decreases left, if changed then 1 else 0
    {
      if i == |edge| {
        if !changed {
          outcome := Stalled;
          break;
        }
        i, changed := 0, false;
      } else if left == 0 {
        outcome := OutOfFuel;
        break;
      } else {
        left := left - 1;
        var removed, advanced;
        edge, ts, parts, groups, removed, advanced :=
          TryEntry(kinds, across, acrossFrom, down, ts0, top, edge, i, ts, parts, groups);
        if advanced {
          instantID := instantID + 1;
        }
        if removed || advanced {
          changed := true;
        } else {
          i := i + 1;
        }
      }
    }
    if outcome == Done && Strands(kinds, across, acrossFrom, down) {
      SweepDone(kinds, across, acrossFrom, down, ts0, top, ts, parts, groups);
    }
  }

  /** Islands joined by a part-wise link share their part. */
  ghost predicate StrandsShareParts(kinds: seq<NodeKind>, across: Successors, acrossFrom: Successors, down: Successors,
                                    ts: seq<Option<TypesettingInfo>>, count: nat)
    requires Meshed(kinds, across, acrossFrom, down) && PartsBelow(kinds, ts, count)
  {
    forall a :: 0 <= a < |kinds| && kinds[a].Island? && across[a].Some? ==>
      PartOf(ts, a) == PartOf(ts, across[a].value)
  }

  /** An instant-wise link leads to a part numbered higher. */
  ghost predicate PartsDescend(kinds: seq<NodeKind>, across: Successors, acrossFrom: Successors, down: Successors,
                               ts: seq<Option<TypesettingInfo>>, count: nat)
    requires Meshed(kinds, across, acrossFrom, down) && PartsBelow(kinds, ts, count)
  {
    forall a :: 0 <= a < |kinds| && kinds[a].Island? && down[a].Some? ==>
      PartOf(ts, a) < PartOf(ts, down[a].value)
  }

  /** Distinct strands have distinct parts. */
  ghost predicate StrandPartsDistinct(kinds: seq<NodeKind>, across: Successors, acrossFrom: Successors, down: Successors,
                                      ts: seq<Option<TypesettingInfo>>, count: nat)
    requires Meshed(kinds, across, acrossFrom, down) && PartsBelow(kinds, ts, count)
  {
    forall o1, o2 ::
      0 <= o1 < o2 < |kinds| && kinds[o1].Island? && kinds[o2].Island? && acrossFrom[o1].None? && acrossFrom[o2].None?
      ==> PartOf(ts, o1) != PartOf(ts, o2)
  }

  /** The parts the strand origins are in. */
  ghost function StrandParts(kinds: seq<NodeKind>, acrossFrom: Successors, ts: seq<Option<TypesettingInfo>>): (r: set<int>)
    requires |acrossFrom| == |kinds| && Numbered(kinds, ts)
    ensures forall o :: 0 <= o < |kinds| && kinds[o].Island? && acrossFrom[o].None? ==> ts[o].value.partID in r
  {
    set o | 0 <= o < |kinds| && kinds[o].Island? && acrossFrom[o].None? :: ts[o].value.partID
  }

  /** Every part number is the part of some strand. */
  ghost predicate PartsCovered(kinds: seq<NodeKind>, across: Successors, acrossFrom: Successors, down: Successors,
                               ts: seq<Option<TypesettingInfo>>, count: nat)
    requires Meshed(kinds, across, acrossFrom, down) && PartsBelow(kinds, ts, count)
  {
    forall p :: 0 <= p < count ==> p in StrandParts(kinds, acrossFrom, ts)
  }

  /** What AssignPartIDs establishes when the observations are not
      contradictory: every island has a part below count, and the three
      predicates above hold: the strands and the parts correspond one to
      one. */
  ghost predicate PartsAssigned(kinds: seq<NodeKind>, across: Successors, acrossFrom: Successors, down: Successors,
                                ts: seq<Option<TypesettingInfo>>, count: nat)
    requires Meshed(kinds, across, acrossFrom, down)
  {
    && PartsBelow(kinds, ts, count)
    && StrandsShareParts(kinds, across, acrossFrom, down, ts, count)
    && PartsDescend(kinds, across, acrossFrom, down, ts, count)
    && StrandPartsDistinct(kinds, across, acrossFrom, down, ts, count)
    && PartsCovered(kinds, across, acrossFrom, down, ts, count)
  }

  /** Only the parts of islands differ between ts0 and ts. */
  predicate SameInstants(kinds: seq<NodeKind>, ts0: seq<Option<TypesettingInfo>>, ts: seq<Option<TypesettingInfo>>) {
    && |ts0| == |ts| == |kinds|
    && forall h :: 0 <= h < |ts| ==>
         ts[h] == ts0[h] ||
         (kinds[h].Island? && ts0[h].Some? && ts[h].Some? && ts[h].value.instantID == ts0[h].value.instantID)
  }

  /** Renumbering the strand tags by the inverse of an ordering that
      respects the observations assigns the parts as PartsAssigned says,
      and changes nothing but islands' parts. */
  lemma RenumberedAssigned(kinds: seq<NodeKind>, across: Successors, acrossFrom: Successors, down: Successors,
                           islands: seq<Handle>, ts0: seq<Option<TypesettingInfo>>, tagged: seq<Option<TypesettingInfo>>,
                           order: seq<nat>)
    requires Strands(kinds, across, acrossFrom, down) && ListsIslands(kinds, islands)
    requires Typeset(kinds, ts0) && |tagged| == |kinds|
    requires TaggedBy(kinds, across, acrossFrom, down, ts0, tagged, Origins(islands, acrossFrom))
    requires PartsBelow(kinds, tagged, |Origins(islands, acrossFrom)|) && AllIslands(kinds, islands)
    requires PartOrder.IsOrdering(|Origins(islands, acrossFrom)|, order)
    requires PartOrder.Respects(PartOrder.Inverse(|Origins(islands, acrossFrom)|, order),
                                Observations(kinds, down, tagged, islands))
    ensures var count := |Origins(islands, acrossFrom)|;
      var ts := Renumbered(kinds, tagged, PartOrder.Inverse(count, order));
      PartsAssigned(kinds, across, acrossFrom, down, ts, count) && SameInstants(kinds, ts0, ts)
  {
    var count := |Origins(islands, acrossFrom)|;
    RenumberedBelow(kinds, tagged, PartOrder.Inverse(count, order));
    RenumberedShare(kinds, across, acrossFrom, down, islands, ts0, tagged, order);
    RenumberedDescend(kinds, across, acrossFrom, down, islands, tagged, count, order);
    RenumberedDistinct(kinds, across, acrossFrom, down, islands, ts0, tagged, order);
    RenumberedCovered(kinds, across, acrossFrom, down, islands, ts0, tagged, order);
    RenumberedSame(kinds, across, acrossFrom, down, islands, ts0, tagged, order);
  }

  lemma RenumberedShare(kinds: seq<NodeKind>, across: Successors, acrossFrom: Successors, down: Successors,
                        islands: seq<Handle>, ts0: seq<Option<TypesettingInfo>>, tagged: seq<Option<TypesettingInfo>>,
                        order: seq<nat>)
    requires Strands(kinds, across, acrossFrom, down) && ListsIslands(kinds, islands)
    requires Typeset(kinds, ts0) && |tagged| == |kinds|
    requires TaggedBy(kinds, across, acrossFrom, down, ts0, tagged, Origins(islands, acrossFrom))
    requires PartsBelow(kinds, tagged, |Origins(islands, acrossFrom)|)
    requires PartOrder.IsOrdering(|Origins(islands, acrossFrom)|, order)
    ensures var count := |Origins(islands, acrossFrom)|;
      var ts := Renumbered(kinds, tagged, PartOrder.Inverse(count, order));
      PartsBelow(kinds, ts, count) && StrandsShareParts(kinds, across, acrossFrom, down, ts, count)
  {
    var count := |Origins(islands, acrossFrom)|;
    var rank := PartOrder.Inverse(count, order);
    var ts := Renumbered(kinds, tagged, rank);
    RenumberedBelow(kinds, tagged, rank);
    forall a | 0 <= a < |kinds| && kinds[a].Island? && across[a].Some?
      ensures PartOf(ts, a) == PartOf(ts, across[a].value)
    {
      PartsFollowStrands(kinds, across, acrossFrom, down, islands, ts0, tagged, rank, a);
    }
  }

  lemma RenumberedDescend(kinds: seq<NodeKind>, across: Successors, acrossFrom: Successors, down: Successors,
                          islands: seq<Handle>, tagged: seq<Option<TypesettingInfo>>, count: nat, order: seq<nat>)
    requires Meshed(kinds, across, acrossFrom, down) && ListsIslands(kinds, islands) && AllIslands(kinds, islands)
    requires PartsBelow(kinds, tagged, count) && PartOrder.IsOrdering(count, order)
    requires PartOrder.Respects(PartOrder.Inverse(count, order), Observations(kinds, down, tagged, islands))
    ensures var ts := Renumbered(kinds, tagged, PartOrder.Inverse(count, order));
      PartsBelow(kinds, ts, count) && PartsDescend(kinds, across, acrossFrom, down, ts, count)
  {
    var rank := PartOrder.Inverse(count, order);
    var ts := Renumbered(kinds, tagged, rank);
    RenumberedBelow(kinds, tagged, rank);
    forall a | 0 <= a < |kinds| && kinds[a].Island? && down[a].Some?
      ensures PartOf(ts, a) < PartOf(ts, down[a].value)
    {
      PartsAscend(kinds, across, acrossFrom, down, islands, tagged, rank, a);
    }
  }

  lemma RenumberedDistinct(kinds: seq<NodeKind>, across: Successors, acrossFrom: Successors, down: Successors,
                            islands: seq<Handle>, ts0: seq<Option<TypesettingInfo>>, tagged: seq<Option<TypesettingInfo>>,
                            order: seq<nat>)
    requires Strands(kinds, across, acrossFrom, down) && ListsIslands(kinds, islands)
    requires Typeset(kinds, ts0) && |tagged| == |kinds|
    requires TaggedBy(kinds, across, acrossFrom, down, ts0, tagged, Origins(islands, acrossFrom))
    requires PartsBelow(kinds, tagged, |Origins(islands, acrossFrom)|)
    requires PartOrder.IsOrdering(|Origins(islands, acrossFrom)|, order)
    ensures var count := |Origins(islands, acrossFrom)|;
      var ts := Renumbered(kinds, tagged, PartOrder.Inverse(count, order));
      PartsBelow(kinds, ts, count) && StrandPartsDistinct(kinds, across, acrossFrom, down, ts, count)
  {
    var count := |Origins(islands, acrossFrom)|;
    var ts := Renumbered(kinds, tagged, PartOrder.Inverse(count, order));
    RenumberedBelow(kinds, tagged, PartOrder.Inverse(count, order));
    forall o1, o2 | 0 <= o1 < o2 < |kinds| && kinds[o1].Island? && kinds[o2].Island? &&
                    acrossFrom[o1].None? && acrossFrom[o2].None?
      ensures PartOf(ts, o1) != PartOf(ts, o2)
    {
      DistinctOrigins(kinds, across, acrossFrom, down, islands, ts0, tagged, order, o1, o2);
    }
  }

  lemma RenumberedCovered(kinds: seq<NodeKind>, across: Successors, acrossFrom: Successors, down: Successors,
                            islands: seq<Handle>, ts0: seq<Option<TypesettingInfo>>, tagged: seq<Option<TypesettingInfo>>,
                            order: seq<nat>)
    requires Strands(kinds, across, acrossFrom, down) && ListsIslands(kinds, islands)
    requires Typeset(kinds, ts0) && |tagged| == |kinds|
    requires TaggedBy(kinds, across, acrossFrom, down, ts0, tagged, Origins(islands, acrossFrom))
    requires PartsBelow(kinds, tagged, |Origins(islands, acrossFrom)|)
    requires PartOrder.IsOrdering(|Origins(islands, acrossFrom)|, order)
    ensures var count := |Origins(islands, acrossFrom)|;
      var ts := Renumbered(kinds, tagged, PartOrder.Inverse(count, order));
      PartsBelow(kinds, ts, count) && PartsCovered(kinds, across, acrossFrom, down, ts, count)
  {
    var count := |Origins(islands, acrossFrom)|;
    var ts := Renumbered(kinds, tagged, PartOrder.Inverse(count, order));
    RenumberedBelow(kinds, tagged, PartOrder.Inverse(count, order));
    var origins := Origins(islands, acrossFrom);
    PartsOnto(kinds, across, acrossFrom, down, islands, ts0, tagged, order);
    OriginsAre(islands, acrossFrom);
    var firsts := seq(count, p requires 0 <= p < count => origins[order[p]]);
    forall p | 0 <= p < count
      ensures firsts[p] < |kinds| && kinds[firsts[p]].Island? && acrossFrom[firsts[p]].None? && PartOf(ts, firsts[p]) == p
    {
      assert origins[order[p]] in origins;
    }
    CoveredBy(kinds, across, acrossFrom, down, ts, count, firsts);
  }

  /** Parts are covered when each has a strand origin as witness. */
  lemma CoveredBy(kinds: seq<NodeKind>, across: Successors, acrossFrom: Successors, down: Successors,
                  ts: seq<Option<TypesettingInfo>>, count: nat, firsts: seq<Handle>)
    requires Meshed(kinds, across, acrossFrom, down) && PartsBelow(kinds, ts, count) && |firsts| == count
    requires forall p :: 0 <= p < count ==>
      firsts[p] < |kinds| && kinds[firsts[p]].Island? && acrossFrom[firsts[p]].None? && PartOf(ts, firsts[p]) == p
    ensures PartsCovered(kinds, across, acrossFrom, down, ts, count)
  {
    forall p | 0 <= p < count
      ensures p in StrandParts(kinds, acrossFrom, ts)
    {
      assert ts[firsts[p]].value.partID == p;
    }
  }

  lemma RenumberedSame(kinds: seq<NodeKind>, across: Successors, acrossFrom: Successors, down: Successors,
                       islands: seq<Handle>, ts0: seq<Option<TypesettingInfo>>, tagged: seq<Option<TypesettingInfo>>,
                       order: seq<nat>)
    requires Strands(kinds, across, acrossFrom, down) && ListsIslands(kinds, islands)
    requires Typeset(kinds, ts0) && |tagged| == |kinds|
    requires TaggedBy(kinds, across, acrossFrom, down, ts0, tagged, Origins(islands, acrossFrom))
    requires PartsBelow(kinds, tagged, |Origins(islands, acrossFrom)|)
    requires PartOrder.IsOrdering(|Origins(islands, acrossFrom)|, order)
    ensures SameInstants(kinds, ts0, Renumbered(kinds, tagged, PartOrder.Inverse(|Origins(islands, acrossFrom)|, order)))
  {
    var rank := PartOrder.Inverse(|Origins(islands, acrossFrom)|, order);
    var ts := Renumbered(kinds, tagged, rank);
    forall h | 0 <= h < |ts|
      ensures ts[h] == ts0[h] ||
        (kinds[h].Island? && ts0[h].Some? && ts[h].Some? && ts[h].value.instantID == ts0[h].value.instantID)
    {
      if kinds[h].Island? {
        FinalPart(kinds, across, acrossFrom, down, islands, ts0, tagged, rank, h);
      }
    }
  }

  /** Two distinct strand origins end up in distinct parts. */
  lemma DistinctOrigins(kinds: seq<NodeKind>, across: Successors, acrossFrom: Successors, down: Successors,
                        islands: seq<Handle>, ts0: seq<Option<TypesettingInfo>>, tagged: seq<Option<TypesettingInfo>>,
                        order: seq<nat>, o1: Handle, o2: Handle)
    requires Strands(kinds, across, acrossFrom, down) && ListsIslands(kinds, islands)
    requires Typeset(kinds, ts0) && |tagged| == |kinds|
    requires TaggedBy(kinds, across, acrossFrom, down, ts0, tagged, Origins(islands, acrossFrom))
    requires PartsBelow(kinds, tagged, |Origins(islands, acrossFrom)|)
    requires PartOrder.IsOrdering(|Origins(islands, acrossFrom)|, order)
    requires o1 < |kinds| && kinds[o1].Island? && acrossFrom[o1].None?
    requires o2 < |kinds| && kinds[o2].Island? && acrossFrom[o2].None? && o1 != o2
    ensures var ts := Renumbered(kinds, tagged, PartOrder.Inverse(|Origins(islands, acrossFrom)|, order));
      ts[o1].Some? && ts[o2].Some? && ts[o1].value.partID != ts[o2].value.partID
  {
    var origins := Origins(islands, acrossFrom);
    OriginsAre(islands, acrossFrom);
    assert o1 in islands && o2 in islands;
    var k1 := PartOrder.IndexOf(origins, o1);
    var k2 := PartOrder.IndexOf(origins, o2);
    PartsOneToOne(kinds, across, acrossFrom, down, islands, ts0, tagged, order, k1, k2);
  }

  /** Every part number is the part of the strand the ordering puts in
      that place. */
  lemma PartOrigin(kinds: seq<NodeKind>, across: Successors, acrossFrom: Successors, down: Successors,
                   islands: seq<Handle>, ts0: seq<Option<TypesettingInfo>>, tagged: seq<Option<TypesettingInfo>>,
                   order: seq<nat>, p: nat) returns (o: Handle)
    requires Strands(kinds, across, acrossFrom, down) && ListsIslands(kinds, islands)
    requires Typeset(kinds, ts0) && |tagged| == |kinds|
    requires TaggedBy(kinds, across, acrossFrom, down, ts0, tagged, Origins(islands, acrossFrom))
    requires PartsBelow(kinds, tagged, |Origins(islands, acrossFrom)|)
    requires PartOrder.IsOrdering(|Origins(islands, acrossFrom)|, order)
    requires p < |Origins(islands, acrossFrom)|
    ensures var ts := Renumbered(kinds, tagged, PartOrder.Inverse(|Origins(islands, acrossFrom)|, order));
      o < |kinds| && kinds[o].Island? && acrossFrom[o].None? && ts[o].Some? && ts[o].value.partID == p
  {
    var origins := Origins(islands, acrossFrom);
    PartsOnto(kinds, across, acrossFrom, down, islands, ts0, tagged, order);
    OriginsAre(islands, acrossFrom);
    o := origins[order[p]];
    assert o in origins;
  }

  /** Renumbering the strand tags keeps everything but islands' parts
      as it was before the tagging. */
  lemma RenumberedKeeps(kinds: seq<NodeKind>, across: Successors, acrossFrom: Successors, down: Successors,
                        islands: seq<Handle>, ts0: seq<Option<TypesettingInfo>>, rank: seq<nat>)
    requires StrandsEnd(kinds, across, acrossFrom, down) && AllIslands(kinds, islands) && Typeset(kinds, ts0)
    requires PartsBelow(kinds, StrandTags(kinds, across, acrossFrom, down, islands, ts0), |rank|)
    ensures SameInstants(kinds, ts0, Renumbered(kinds, StrandTags(kinds, across, acrossFrom, down, islands, ts0), rank))
  {
    var tagged := StrandTags(kinds, across, acrossFrom, down, islands, ts0);
    var ts := Renumbered(kinds, tagged, rank);
    forall h | 0 <= h < |ts|
      ensures ts[h] == ts0[h] ||
        (kinds[h].Island? && ts0[h].Some? && ts[h].Some? && ts[h].value.instantID == ts0[h].value.instantID)
    {
      TagsKeep(kinds, across, acrossFrom, down, islands, ts0, h);
    }
  }

  /** How AssignPartIDs ended. Assigned: the parts were renumbered by the
      solved order and the bounds marked. Conflicted: the observations
      contradict each other (crossing staves). Unnumbered: an island that
      no strand reached kept a part outside 0 .. count-1, where the
      source would index its part tables out of range. */
  datatype PartsOutcome = Assigned(bounds: seq<Bounds>) | Conflicted | Unnumbered

  /** The outcome of AssignPartIDs from typesetting ts0: islands lists
      the islands and count is the number of strands. Unless the parts
      were assigned, ts holds the strand tags; it is Unnumbered exactly
      when the tags leave an island outside 0 .. count-1, and Conflicted
      only when no ranking of the strands respects the observations.
      Assigned parts stay below count and ascend along instant-wise
      links, only islands' parts changed, and the bounds are the marked
      ones. When the links form strands, the tags are TaggedBy's, no
      island is left unnumbered, and assigned parts correspond one to one
      with the strands, each with both bounds. */
  ghost predicate PartsNumbered(kinds: seq<NodeKind>, across: Successors, acrossFrom: Successors, down: Successors,
                                ts0: seq<Option<TypesettingInfo>>, islands: seq<Handle>, count: nat,
                                ts: seq<Option<TypesettingInfo>>, outcome: PartsOutcome)
    requires StrandsEnd(kinds, across, acrossFrom, down) && Typeset(kinds, ts0)
  {
    && ListsIslands(kinds, islands) && AllIslands(kinds, islands) && count == |Origins(islands, acrossFrom)|
    && Typeset(kinds, ts)
    && var tagged := StrandTags(kinds, across, acrossFrom, down, islands, ts0);
    && (outcome.Unnumbered? <==> !PartsBelow(kinds, tagged, count))
    && (!outcome.Assigned? ==> ts == tagged)
    && (outcome.Conflicted? ==>
      forall rank :: |rank| == count ==> !PartOrder.Respects(rank, Observations(kinds, down, ts, islands)))
    && (outcome.Assigned? ==>
      && PartsBelow(kinds, ts, count) && PartsDescend(kinds, across, acrossFrom, down, ts, count)
      && SameInstants(kinds, ts0, ts)
      && outcome.bounds == BoundsOf(kinds, across, acrossFrom, ts, islands, count)
      && BoundsMean(kinds, across, acrossFrom, ts, islands, outcome.bounds))
    && (Strands(kinds, across, acrossFrom, down) ==>
      && !outcome.Unnumbered?
      && (outcome.Conflicted? ==> TaggedBy(kinds, across, acrossFrom, down, ts0, ts, Origins(islands, acrossFrom)))
      && (outcome.Assigned? ==>
        && PartsAssigned(kinds, across, acrossFrom, down, ts, count)
        && forall p :: 0 <= p < count ==> outcome.bounds[p].first.Some? && outcome.bounds[p].last.Some?))
  }

  /** AssignPartIDs on the graph's tables: gather the islands, tag the
      strands, observe the part orders and solve them. An island left
      outside the strand numbers stops it after the tagging, and so do
      contradictory observations (crossing staves), with no ranking of
      the strands able to respect them; otherwise the parts are
      renumbered by the solved order, so that they ascend along
      instant-wise links, only islands' parts change, and the bounds of
      the parts are marked. */
  method AssignParts(kinds: seq<NodeKind>, across: Successors, acrossFrom: Successors, down: Successors,
                     ts0: seq<Option<TypesettingInfo>>)
    returns (islands: seq<Handle>, count: nat, ts: seq<Option<TypesettingInfo>>, outcome: PartsOutcome)
    requires StrandsEnd(kinds, across, acrossFrom, down) && Typeset(kinds, ts0)
    ensures PartsNumbered(kinds, across, acrossFrom, down, ts0, islands, count, ts, outcome)
  {
    islands := GatherIslands(kinds);
    var tagged;
    tagged, count := MarkPartStrands(kinds, across, acrossFrom, down, islands, ts0);
    if Strands(kinds, across, acrossFrom, down) {
      AllTagged(kinds, across, acrossFrom, down, islands, ts0, tagged);
    }
    if !(forall i :: 0 <= i < |islands| ==> 0 <= tagged[islands[i]].value.partID < count) {
      ts, outcome := tagged, Unnumbered;
      return;
    }
    assert PartsBelow(kinds, tagged, count) by {
      forall h | 0 <= h < |kinds| && kinds[h].Island?
        ensures 0 <= tagged[h].value.partID < count
      {
        assert h in islands;
      }
    }
    var cons := ObservePartOrders(kinds, down, tagged, islands);
    ObservationsWithin(kinds, down, tagged, islands, count);
    PartOrder.ConflictedIffNoOrder(count, cons);
    var solved := PartOrder.Solve(count, cons);
    if solved.None? {
      ts, outcome := tagged, Conflicted;
      return;
    }
    var order := solved.value;
    PartOrder.SolveOrders(count, cons);
    var partMap := MakePartMap(count, order);
    ts := RenumberParts(kinds, islands, tagged, partMap);
    RenumberedDescend(kinds, across, acrossFrom, down, islands, tagged, count, order);
    RenumberedKeeps(kinds, across, acrossFrom, down, islands, ts0, partMap);
    if Strands(kinds, across, acrossFrom, down) {
      RenumberedAssigned(kinds, across, acrossFrom, down, islands, ts0, tagged, order);
      BoundsComplete(kinds, across, acrossFrom, down, islands, ts0, tagged, order);
    }
    var b := MarkPartBounds(kinds, across, acrossFrom, ts, islands, count);
    BoundsAre(kinds, across, acrossFrom, ts, islands, count);
    outcome := Assigned(b);
  }
}
