/** The Geometry object: the islands it found, the number of parts and
    instants, each part's bounds and instant range, the size of each
    instant group and a part-by-instant matrix for looking islands up.
    Parse runs the part numbering, the instant numbering and the
    accessor assignment in turn. */
module Layout {
  import opened Wrappers
  import opened Chains
  import opened Graph
  import opened Numbering
  import PartOrder

  /** The instant of the island a bound names, or -1 where no island with
      typesetting information is named. */
  function InstantOf(ts: seq<Option<TypesettingInfo>>, b: Option<Handle>): int {
    if b.Some? && b.value < |ts| && ts[b.value].Some? then ts[b.value].value.instantID else -1
  }

  /** The instant range of every part: from the instant of its first
      island to the instant of its last. */
  function InstantRanges(ts: seq<Option<TypesettingInfo>>, bounds: seq<Bounds>): (r: seq<Range>)
    ensures |r| == |bounds|
  {
    seq(|bounds|, i requires 0 <= i < |bounds| => Range(InstantOf(ts, bounds[i].first), InstantOf(ts, bounds[i].last)))
  }

  /** MarkInstantRanges: one range per part bound. */
  method MarkInstantRanges(ts: seq<Option<TypesettingInfo>>, bounds: seq<Bounds>) returns (ranges: seq<Range>)
    ensures ranges == InstantRanges(ts, bounds)
  {
    ranges := [];
    for i := 0 to |bounds|
      invariant ranges == InstantRanges(ts, bounds[..i])
    {
      ranges := ranges + [Range(InstantOf(ts, bounds[i].first), InstantOf(ts, bounds[i].last))];
    }
    assert bounds[..|bounds|] == bounds;
  }

  /** When the bounds are those of a completed part numbering and only
      instants have changed since, the range of part p runs from the
      instant of an island that starts a strand of part p to the instant
      of an island that ends one. */
  lemma RangesSpanParts(kinds: seq<NodeKind>, across: Successors, acrossFrom: Successors,
                        tsParts: seq<Option<TypesettingInfo>>, ts: seq<Option<TypesettingInfo>>,
                        islands: seq<Handle>, bounds: seq<Bounds>, n: nat, p: nat)
    requires |across| == |kinds| && |acrossFrom| == |kinds|
    requires PartsBelow(kinds, tsParts, |bounds|) && AllIslands(kinds, islands)
    requires BoundsMean(kinds, across, acrossFrom, tsParts, islands, bounds)
    requires InstantsBelow(kinds, tsParts, ts, n)
    requires p < |bounds| && bounds[p].first.Some? && bounds[p].last.Some?
    ensures var s, e := bounds[p].first.value, bounds[p].last.value;
      && s in islands && acrossFrom[s].None? && e in islands && across[e].None?
      && s < |ts| && ts[s].Some? && ts[s].value.partID == p
      && e < |ts| && ts[e].Some? && ts[e].value.partID == p
      && InstantRanges(ts, bounds)[p] == Range(ts[s].value.instantID, ts[e].value.instantID)
  {
    var s, e := bounds[p].first.value, bounds[p].last.value;
    assert s in islands && e in islands;
    var i :| 0 <= i < |islands| && islands[i] == s;
    var j :| 0 <= j < |islands| && islands[j] == e;
  }

  /** The parts whose instant range contains instant k, in part order. */
  function PartsAt(ranges: seq<Range>, k: int): (r: seq<nat>)
    ensures forall p: nat :: p in r <==> p < |ranges| && ranges[p].first <= k <= ranges[p].last
    ensures forall i, j :: 0 <= i < j < |r| ==> r[i] < r[j]
    ensures forall i :: 0 <= i < |r| ==> r[i] < |ranges|
    decreases |ranges|
  {
    if ranges == [] then []
    else
      var n := |ranges| - 1;
      var r := PartsAt(ranges[..n], k);
      if ranges[n].first <= k <= ranges[n].last then r + [n] else r
  }

  /** An island has been given part p and instant k. */
  predicate At(ts: seq<Option<TypesettingInfo>>, h: Handle, p: int, k: int) {
    h < |ts| && ts[h].Some? && ts[h].value.partID == p && ts[h].value.instantID == k
  }

  /** Every listed island carries typesetting information. */
  predicate Readable(ts: seq<Option<TypesettingInfo>>, islands: seq<Handle>) {
    forall i :: 0 <= i < |islands| ==> islands[i] < |ts| && ts[islands[i]].Some?
  }

  /** The matrix AssignAccessors fills: a parts by instants table, empty
      but for the islands whose part and instant fall inside it, a later
      island replacing an earlier one with the same part and instant. */
  function Accessors(ts: seq<Option<TypesettingInfo>>, islands: seq<Handle>, parts: nat, instants: nat)
    : (m: seq<seq<Option<Handle>>>)
    requires Readable(ts, islands)
    ensures |m| == parts && forall p :: 0 <= p < parts ==> |m[p]| == instants
    decreases |islands|
  {
    if islands == [] then Filled(Filled(None, instants), parts)
    else
      var n := |islands| - 1;
      var h := islands[n];
      var m := Accessors(ts, islands[..n], parts, instants);
      var p, k := ts[h].value.partID, ts[h].value.instantID;
      if 0 <= p < parts && 0 <= k < instants then m[p := m[p][k := Some(h)]] else m
  }

  /** What the matrix holds: an island found at part p and instant k has
      that part and instant, and it is the last listed island that has
      them; where no listed island has them the entry is empty. */
  lemma {:induction false} AccessorsAre(ts: seq<Option<TypesettingInfo>>, islands: seq<Handle>,
                                        parts: nat, instants: nat, p: nat, k: nat)
    requires Readable(ts, islands) && p < parts && k < instants
    ensures var m := Accessors(ts, islands, parts, instants);
      && (m[p][k].Some? ==> m[p][k].value in islands && At(ts, m[p][k].value, p, k))
      && (forall i ::
            0 <= i < |islands| && At(ts, islands[i], p, k) && (forall j :: i < j < |islands| ==> !At(ts, islands[j], p, k))
            ==> m[p][k] == Some(islands[i]))
      && (m[p][k].None? ==> forall i :: 0 <= i < |islands| ==> !At(ts, islands[i], p, k))
    decreases |islands|
  {
    if islands != [] {
      var n := |islands| - 1;
      var prefix := islands[..n];
      assert forall i :: 0 <= i < n ==> prefix[i] == islands[i];
      AccessorsAre(ts, prefix, parts, instants, p, k);
    }
  }

  /** AssignAccessors' loop: a fresh parts by instants matrix, filled in
      the order of the islands. */
  method FillAccessors(ts: seq<Option<TypesettingInfo>>, islands: seq<Handle>, parts: nat, instants: nat)
    returns (m: array2<Option<Handle>>)
    requires Readable(ts, islands)
    ensures fresh(m) && m.Length0 == parts && m.Length1 == instants
    ensures forall p, k :: 0 <= p < parts && 0 <= k < instants ==> m[p, k] == Accessors(ts, islands, parts, instants)[p][k]
  {
    m := new Option<Handle>[parts, instants]((_, _) => None);
    for i := 0 to |islands|
      invariant forall p, k :: 0 <= p < parts && 0 <= k < instants ==>
        m[p, k] == Accessors(ts, islands[..i], parts, instants)[p][k]
    {
      assert islands[..i + 1][..i] == islands[..i];
      var h := islands[i];
      var p, k := ts[h].value.partID, ts[h].value.instantID;
      if 0 <= p < parts && 0 <= k < instants {
        m[p, k] := Some(h);
      }
    }
    assert islands[..|islands|] == islands;
  }

  /** Islands with typesetting information can be read. */
  lemma ReadableIslands(kinds: seq<NodeKind>, ts: seq<Option<TypesettingInfo>>, islands: seq<Handle>)
    requires Typeset(kinds, ts) && AllIslands(kinds, islands)
    ensures Readable(ts, islands)
  {
  }

  /** Every island the sweep numbered is listed, has a part below the
      part count and has one of the instants handed out. */
  lemma NumberedInMatrix(kinds: seq<NodeKind>, across: Successors, acrossFrom: Successors, down: Successors,
                         tsParts: seq<Option<TypesettingInfo>>, top: Handle, ts: seq<Option<TypesettingInfo>>,
                         parts: seq<nat>, groups: seq<seq<Handle>>, islands: seq<Handle>, count: nat)
    requires Columns(kinds, across, acrossFrom, down) && top < |kinds| && kinds[top].Island?
    requires Typeset(kinds, tsParts) && PartsBelow(kinds, tsParts, count) && ListsIslands(kinds, islands)
    requires InstantsNumbered(kinds, across, acrossFrom, down, tsParts, top, ts, parts, groups)
    ensures forall h: Handle :: Given(groups, h) ==>
      && h in islands && h < |ts| && ts[h].Some?
      && 0 <= ts[h].value.partID < count && 0 <= ts[h].value.instantID < |parts|
  {
    NumberedBelow(kinds, across, acrossFrom, down, tsParts, top, ts, parts, groups);
  }

  /** An island listed with a part and an instant inside the matrix has
      a filled place in it. */
  lemma {:induction false} PlacedInMatrix(ts: seq<Option<TypesettingInfo>>, islands: seq<Handle>,
                                          parts: nat, instants: nat, h: Handle)
    requires Readable(ts, islands) && h in islands && h < |ts| && ts[h].Some?
    requires 0 <= ts[h].value.partID < parts && 0 <= ts[h].value.instantID < instants
    ensures Accessors(ts, islands, parts, instants)[ts[h].value.partID][ts[h].value.instantID].Some?
    decreases |islands|
  {
    var n := |islands| - 1;
    if islands[n] != h {
      var prefix := islands[..n];
      var i :| 0 <= i < |islands| && islands[i] == h;
      assert prefix[i] == h;
      PlacedInMatrix(ts, prefix, parts, instants, h);
    }
  }

  /** The geometry of an island subgraph. */
  class Geometry {
    var islands: seq<Handle>
    var partCount: nat
    var instantCount: nat
    var partBounds: seq<Bounds>
    var partInstantRange: seq<Range>
    var partsInInstant: seq<nat>
    var islandMatrix: array2<Option<Handle>>
    /** The typesetting information the matrix was filled from. */
    ghost var filledFrom: seq<Option<TypesettingInfo>>

    /** The matrix is the parts by instants table of the islands as
        filledFrom numbers them. */
    ghost predicate Indexed()
      reads this, islandMatrix
    {
      && islandMatrix.Length0 == partCount && islandMatrix.Length1 == instantCount
      && Readable(filledFrom, islands)
      && forall p, k :: 0 <= p < partCount && 0 <= k < instantCount ==>
           islandMatrix[p, k] == Accessors(filledFrom, islands, partCount, instantCount)[p][k]
    }

    /** A geometry before any parse: nothing found. */
    constructor ()
      ensures islands == [] && partCount == 0 && instantCount == 0
      ensures partBounds == [] && partInstantRange == [] && partsInInstant == []
      ensures fresh(islandMatrix) && Indexed()
    {
      islands, partCount, instantCount := [], 0, 0;
      partBounds, partInstantRange, partsInInstant := [], [], [];
      islandMatrix := new Option<Handle>[0, 0];
      filledFrom := [];
    }

    /** AssignPartIDs: the islands, the part count and, when the parts
        are assigned, the renumbered parts and the part bounds. Otherwise
        the islands keep their strand tags and the bounds are left as
        they were. */
    method AssignPartIDs(g: MusicGraph) returns (result: PartsOutcome)
      requires g.Valid() && StrandsEnd(g.kinds, g.across, g.acrossFrom, g.down) && Typeset(g.kinds, g.typesetting)
      modifies this, g`typesetting
      ensures g.Valid()
      ensures PartsNumbered(g.kinds, g.across, g.acrossFrom, g.down, old(g.typesetting), islands, partCount,
                            g.typesetting, result)
      ensures result.Assigned? ==> partBounds == result.bounds
      ensures !result.Assigned? ==> partBounds == old(partBounds)
      ensures instantCount == old(instantCount) && partInstantRange == old(partInstantRange)
      ensures partsInInstant == old(partsInInstant) && islandMatrix == old(islandMatrix)
      ensures filledFrom == old(filledFrom)
    {
      var ts;
      islands, partCount, ts, result := AssignParts(g.kinds, g.across, g.acrossFrom, g.down, g.typesetting);
      g.typesetting := ts;
      if result.Assigned? {
        partBounds := result.bounds;
      }
    }
  
    /** AssignInstantIDs: the leading-edge sweep from the top island,
        given at most fuel turns. The sizes of the instant groups are
        recorded whatever the outcome; when the sweep is done, the
        instant count and every part's instant range are set as well
        (the source never returns from a sweep that does not finish, so
        they are left as they were then). A stalled sweep leaves an edge
        on which every entry is blocked; when the links form strands, a
        finished one has numbered every island reached from the top. */
    method AssignInstantIDs(g: MusicGraph, fuel: nat)
      returns (outcome: Outcome, ghost edge: seq<Handle>, ghost groups: seq<seq<Handle>>)
      requires g.Valid() && Columns(g.kinds, g.across, g.acrossFrom, g.down) && Typeset(g.kinds, g.typesetting)
      requires g.top.Some? && g.top.value < |g.kinds| && g.kinds[g.top.value].Island?
      modifies this, g`typesetting
      ensures g.Valid()
      ensures InstantsNumbered(g.kinds, g.across, g.acrossFrom, g.down, old(g.typesetting), g.top.value,
                               g.typesetting, partsInInstant, groups)
      ensures outcome == Done <==> edge == []
      ensures outcome == Done && Strands(g.kinds, g.across, g.acrossFrom, g.down) ==> NumberedClosed(g.kinds, g.across, g.down, g.top.value, groups)
      ensures outcome == Done ==>
        instantCount == |partsInInstant| && partInstantRange == InstantRanges(g.typesetting, partBounds)
      ensures outcome != Done ==> instantCount == old(instantCount) && partInstantRange == old(partInstantRange)
      ensures outcome == Stalled ==>
        && AllIslands(g.kinds, edge)
        && forall k :: 0 <= k < |edge| ==> Blocked(g.kinds, g.across, g.acrossFrom, g.down, edge, edge[k])
      ensures islands == old(islands) && partCount == old(partCount) && partBounds == old(partBounds)
      ensures islandMatrix == old(islandMatrix) && filledFrom == old(filledFrom)
    {
      var ts, parts;
      ts, parts, edge, outcome, groups := LeadingEdge(g.kinds, g.across, g.acrossFrom, g.down, g.typesetting, g.top.value, fuel);
      g.typesetting := ts;
      partsInInstant := parts;
      if outcome == Done {
        partInstantRange := MarkInstantRanges(ts, partBounds);
        instantCount := |parts|;
      }
    }

    /** AssignAccessors: a fresh parts by instants matrix holding every
        island at its part and instant. */
    method AssignAccessors(g: MusicGraph)
      requires Readable(g.typesetting, islands)
      modifies this
      ensures fresh(islandMatrix) && Indexed() && filledFrom == g.typesetting
      ensures islands == old(islands) && partCount == old(partCount) && instantCount == old(instantCount)
      ensures partBounds == old(partBounds) && partInstantRange == old(partInstantRange)
      ensures partsInInstant == old(partsInInstant)
    {
      islandMatrix := FillAccessors(g.typesetting, islands, partCount, instantCount);
      filledFrom := g.typesetting;
    }

    /** What Parse leaves in the geometry, for a graph with the given
        links and top, typesetting ts0 before and ts after: the part
        numbering with its outcome (tsParts being the typesetting in
        between), the instant numbering with its log of groups, and
        after a finished sweep the instant count, the part ranges and
        the matrix over ts. Unless an island was left unnumbered, every
        island the sweep numbered has its place in the matrix; when
        besides the parts were assigned and the links form strands,
        every part's instant range runs from the instant of the island
        starting it to the instant of the island ending it. */
    ghost predicate Parsed(kinds: seq<NodeKind>, across: Successors, acrossFrom: Successors, down: Successors,
                           top: Handle, ts0: seq<Option<TypesettingInfo>>, tsParts: seq<Option<TypesettingInfo>>,
                           ts: seq<Option<TypesettingInfo>>, parts: PartsOutcome, outcome: Outcome,
                           edge: seq<Handle>, groups: seq<seq<Handle>>)
      reads this, islandMatrix
      requires Columns(kinds, across, acrossFrom, down) && StrandsEnd(kinds, across, acrossFrom, down)
      requires Typeset(kinds, ts0) && top < |kinds| && kinds[top].Island?
    {
      && PartsNumbered(kinds, across, acrossFrom, down, ts0, islands, partCount, tsParts, parts)
      && (parts.Assigned? ==> partBounds == parts.bounds)
      && InstantsNumbered(kinds, across, acrossFrom, down, tsParts, top, ts, partsInInstant, groups)
      && (outcome == Done <==> edge == [])
      && (outcome == Done && Strands(kinds, across, acrossFrom, down) ==> NumberedClosed(kinds, across, down, top, groups))
      && (outcome == Stalled ==>
        && AllIslands(kinds, edge)
        && forall k :: 0 <= k < |edge| ==> Blocked(kinds, across, acrossFrom, down, edge, edge[k]))
      && (outcome == Done ==>
        && instantCount == |partsInInstant| && partInstantRange == InstantRanges(ts, partBounds)
        && Indexed() && filledFrom == ts)
      && (outcome == Done && !parts.Unnumbered? ==> forall h: Handle :: Given(groups, h) ==>
        && h in islands && ts[h].Some?
        && 0 <= ts[h].value.partID < partCount
        && 0 <= ts[h].value.instantID < instantCount
        && LookupIsland(ts[h].value.partID, ts[h].value.instantID).Some?)
      && (outcome == Done && parts.Assigned? && Strands(kinds, across, acrossFrom, down) ==>
        && |partInstantRange| == partCount
        && forall p :: 0 <= p < partCount ==>
          var s, e := partBounds[p].first.value, partBounds[p].last.value;
          && s in islands && acrossFrom[s].None? && e in islands && across[e].None?
          && At(ts, s, p, partInstantRange[p].first)
          && At(ts, e, p, partInstantRange[p].last))
    }

    /** Parse: the parts, then the instants, then the accessors. The
        accessors are only assigned after a finished sweep; parts that
        were not assigned do not stop the instants. tsParts is the
        typesetting after the part numbering. When the sweep finished,
        every island it numbered that has a part number has its place in
        the matrix; when besides the parts were assigned and the links
        form strands, every part's instant range runs from the instant of
        the island starting it to the instant of the island ending it. */
    method Parse(g: MusicGraph, fuel: nat)
      returns (parts: PartsOutcome, outcome: Outcome, ghost tsParts: seq<Option<TypesettingInfo>>,
               ghost edge: seq<Handle>, ghost groups: seq<seq<Handle>>)
      requires g.Valid() && Columns(g.kinds, g.across, g.acrossFrom, g.down)
      requires StrandsEnd(g.kinds, g.across, g.acrossFrom, g.down) && Typeset(g.kinds, g.typesetting)
      requires g.top.Some? && g.top.value < |g.kinds| && g.kinds[g.top.value].Island?
      modifies this, g`typesetting
      ensures g.Valid()
      ensures PartsNumbered(g.kinds, g.across, g.acrossFrom, g.down, old(g.typesetting), islands, partCount,
                            tsParts, parts)
      ensures parts.Assigned? ==> partBounds == parts.bounds
      ensures InstantsNumbered(g.kinds, g.across, g.acrossFrom, g.down, tsParts, g.top.value,
                               g.typesetting, partsInInstant, groups)
      ensures outcome == Done <==> edge == []
      ensures outcome == Done && Strands(g.kinds, g.across, g.acrossFrom, g.down) ==> NumberedClosed(g.kinds, g.across, g.down, g.top.value, groups)
      ensures outcome == Stalled ==>
        && AllIslands(g.kinds, edge)
        && forall k :: 0 <= k < |edge| ==> Blocked(g.kinds, g.across, g.acrossFrom, g.down, edge, edge[k])
      ensures outcome == Done ==>
        && instantCount == |partsInInstant| && partInstantRange == InstantRanges(g.typesetting, partBounds)
        && Indexed() && filledFrom == g.typesetting
      ensures outcome == Done && !parts.Unnumbered? ==> forall h: Handle :: Given(groups, h) ==>
        && h in islands && g.typesetting[h].Some?
        && 0 <= g.typesetting[h].value.partID < partCount
        && 0 <= g.typesetting[h].value.instantID < instantCount
        && LookupIsland(g.typesetting[h].value.partID, g.typesetting[h].value.instantID).Some?
      ensures outcome == Done && parts.Assigned? && Strands(g.kinds, g.across, g.acrossFrom, g.down) ==>
        && |partInstantRange| == partCount
        && forall p :: 0 <= p < partCount ==>
          var s, e := partBounds[p].first.value, partBounds[p].last.value;
          && s in islands && g.acrossFrom[s].None? && e in islands && g.across[e].None?
          && At(g.typesetting, s, p, partInstantRange[p].first)
          && At(g.typesetting, e, p, partInstantRange[p].last)
    {
      parts := AssignPartIDs(g);
      tsParts := g.typesetting;
      outcome, edge, groups := AssignInstantIDs(g, fuel);
      if outcome == Done {
        ReadableIslands(g.kinds, g.typesetting, islands);
        AssignAccessors(g);
        if !parts.Unnumbered? {
          assert forall h: Handle :: Given(groups, h) ==>
            && h in islands && g.typesetting[h].Some?
            && 0 <= g.typesetting[h].value.partID < partCount
            && 0 <= g.typesetting[h].value.instantID < instantCount
            && LookupIsland(g.typesetting[h].value.partID, g.typesetting[h].value.instantID).Some?
          by {
            NumberedInMatrix(g.kinds, g.across, g.acrossFrom, g.down, tsParts, g.top.value, g.typesetting,
                             partsInInstant, groups, islands, partCount);
            forall h: Handle | Given(groups, h)
              ensures LookupIsland(g.typesetting[h].value.partID, g.typesetting[h].value.instantID).Some?
            {
              PlacedInMatrix(filledFrom, islands, partCount, instantCount, h);
            }
          }
        }
        if parts.Assigned? && Strands(g.kinds, g.across, g.acrossFrom, g.down) {
          forall p | 0 <= p < partCount
            ensures var s, e := partBounds[p].first.value, partBounds[p].last.value;
              && s in islands && g.acrossFrom[s].None? && e in islands && g.across[e].None?
              && At(g.typesetting, s, p, partInstantRange[p].first)
              && At(g.typesetting, e, p, partInstantRange[p].last)
          {
            RangesSpanParts(g.kinds, g.across, g.acrossFrom, tsParts, g.typesetting, islands, partBounds,
                            |partsInInstant|, p);
          }
        }
      }
    }

    /** LookupIsland: the island at part p and instant k, which has that
        part and instant and is the last island listed with them; none
        when no island has them. */
    function LookupIsland(p: nat, k: nat): (r: Option<Handle>)
      reads this, islandMatrix
      requires Indexed() && p < partCount && k < instantCount
      ensures r.Some? ==> r.value in islands && At(filledFrom, r.value, p, k)
      ensures r.None? ==> forall i :: 0 <= i < |islands| ==> !At(filledFrom, islands[i], p, k)
      ensures forall i ::
        0 <= i < |islands| && At(filledFrom, islands[i], p, k) &&
        (forall j :: i < j < |islands| ==> !At(filledFrom, islands[j], p, k))
        ==> r == Some(islands[i])
    {
      AccessorsAre(filledFrom, islands, partCount, instantCount, p, k);
      islandMatrix[p, k]
    }

    /** TopMostIslandInInstant: the island of the lowest-numbered part
        present at instant k, if any. */
    method TopMostIslandInInstant(k: nat) returns (r: Option<Handle>)
      requires Indexed() && k < instantCount
      ensures r.None? ==> forall p :: 0 <= p < partCount ==> LookupIsland(p, k).None?
      ensures r.Some? ==> exists p ::
        && 0 <= p < partCount && LookupIsland(p, k) == r
        && forall q :: 0 <= q < p ==> LookupIsland(q, k).None?
    {
      r := None;
      var p := 0;
      while p < partCount
        invariant p <= partCount && r.None?
        invariant forall q :: 0 <= q < p ==> LookupIsland(q, k).None?
      {
        r := LookupIsland(p, k);
        if r.Some? {
          return;
        }
        p := p + 1;
      }
    }

    /** GetPartListForInstant: the parts whose instant range contains
        instant k, in part order. */
    method GetPartListForInstant(k: int) returns (parts: seq<nat>)
      ensures parts == PartsAt(partInstantRange, k)
    {
      parts := [];
      for i := 0 to |partInstantRange|
        invariant parts == PartsAt(partInstantRange[..i], k)
      {
        assert partInstantRange[..i + 1][..i] == partInstantRange[..i];
        if partInstantRange[i].first <= k <= partInstantRange[i].last {
          parts := parts + [i];
        }
      }
      assert partInstantRange[..|partInstantRange|] == partInstantRange;
    }

    /** IsInstantComplete: as many parts' ranges contain instant k as
        the instant group k had islands. */
    method IsInstantComplete(k: nat) returns (complete: bool)
      requires k < |partsInInstant|
      ensures complete <==> |PartsAt(partInstantRange, k)| == partsInInstant[k]
    {
      var l := GetPartListForInstant(k);
      complete := |l| == partsInInstant[k];
    }
}
}
