/** Score::determineExtraStaves: which parts show an extra tablature staff
    beneath their standard staff. Rows of the music graph are walked from
    the top island down the instant-wise links, each row across its
    part-wise links; a row whose islands include one opened by a part
    token that carries a stringed instrument displayed as standard and tab
    gets one extra staff, under the number of the row. */
module Notation {
  import opened Wrappers
  import opened Chains
  import opened Graph
  import Instruments

  /** Island h opens with a part token whose own first token is a stringed
      instrument displayed as standard and tab. Find is the first linked
      node of the kind asked for, and the casts fail (nothing found) when
      that node is of another class. */
  predicate ShowsTab(n: NodeTables, h: Handle) {
    && h < |n.kinds| && h < |n.links| && n.kinds[h].Island?
    && var part := Targets(n.links[h], TokenLink);
       && part != [] && part[0] < |n.kinds| && part[0] < |n.links| && n.kinds[part[0]].PartToken?
       && var inst := Targets(n.links[part[0]], TokenLink);
          && inst != [] && inst[0] < |n.kinds| && n.kinds[inst[0]].StringedInstrument?
          && n.kinds[inst[0]].instrument.displaySetting == Instruments.StandardAndTab
  }

  /** Some island of the row that starts at r shows tablature. */
  ghost predicate RowShowsTab(n: NodeTables, across: Successors, r: Handle)
    requires Ends(across, r)
  {
    exists h :: h in Chain(across, r) && ShowsTab(n, h)
  }

  /** Both walks of determineExtraStaves end: down the instant-wise links
      from the top, and across the part-wise links of every row met. */
  ghost predicate Walkable(m: MeshLinks, top: Option<Handle>) {
    top.Some? ==>
      && Ends(m.down, top.value)
      && forall r :: r in Chain(m.down, top.value) ==> Ends(m.across, r)
  }

  /** The first island of every row, top row first. */
  ghost function Rows(m: MeshLinks, top: Option<Handle>): (r: seq<Handle>)
    requires Walkable(m, top)
    ensures forall i :: 0 <= i < |r| ==> Ends(m.across, r[i])
  {
    if top.None? then [] else Chain(m.down, top.value)
  }

  /** The extra staves of the rows: one for each row that shows
      tablature, under that row's number. */
  ghost function Staves(n: NodeTables, across: Successors, rows: seq<Handle>): seq<StaffCount>
    requires forall i :: 0 <= i < |rows| ==> Ends(across, rows[i])
  {
    if rows == [] then []
    else
      Staves(n, across, rows[..|rows| - 1])
      + (if RowShowsTab(n, across, rows[|rows| - 1]) then [StaffCount(|rows| - 1, 1)] else [])
  }

  /** Exactly the rows that show tablature get an entry, each under its
      own number and with one extra staff. */
  lemma {:induction false} StavesMeaning(n: NodeTables, across: Successors, rows: seq<Handle>, e: StaffCount)
    requires forall i :: 0 <= i < |rows| ==> Ends(across, rows[i])
    ensures e in Staves(n, across, rows) <==>
      e.numExtra == 1 && 0 <= e.partID < |rows| && RowShowsTab(n, across, rows[e.partID])
  {
    if rows != [] {
      var front := rows[..|rows| - 1];
      StavesMeaning(n, across, front, e);
      if 0 <= e.partID < |front| {
        assert front[e.partID] == rows[e.partID];
      }
    }
  }

  /** The entries come in increasing part order, so the list is sorted by
      ExtraStaffSortingComparator and names no part twice. */
  lemma {:induction false} StavesOrdered(n: NodeTables, across: Successors, rows: seq<Handle>)
    requires forall i :: 0 <= i < |rows| ==> Ends(across, rows[i])
    ensures forall i :: 0 <= i < |Staves(n, across, rows)| ==> 0 <= Staves(n, across, rows)[i].partID < |rows|
    ensures Increasing(Staves(n, across, rows))
  {
    if rows != [] {
      var front := rows[..|rows| - 1];
      StavesOrdered(n, across, front);
      var s0, s := Staves(n, across, front), Staves(n, across, rows);
      assert |s| == |s0| || (|s| == |s0| + 1 && s[|s0|] == StaffCount(|rows| - 1, 1));
      forall i, j | 0 <= i < j < |s|
        ensures CompareElements(s[i], s[j]) == -1
      {
        assert s[i] == s0[i] && s0[i].partID < |front|;
        if j < |s0| {
          assert s[j] == s0[j];
        } else {
          assert s[j].partID == |front|;
        }
      }
      forall i | 0 <= i < |s|
        ensures 0 <= s[i].partID < |rows|
      {
        if i < |s0| {
          assert s[i] == s0[i];
        }
      }
    }
  }

  /** The part numbers strictly increase along s. */
  predicate Increasing(s: seq<StaffCount>) {
    forall i, j :: 0 <= i < j < |s| ==> CompareElements(s[i], s[j]) == -1
  }

  /** s is sorted by ExtraStaffSortingComparator. */
  predicate InOrder(s: seq<StaffCount>) {
    forall i, j :: 0 <= i < j < |s| ==> CompareElements(s[i], s[j]) <= 0
  }

  /** Two lists with the same entries, the first with strictly
      increasing part numbers and the second sorted, start alike. */
  lemma SameHead(s: seq<StaffCount>, t: seq<StaffCount>)
    requires s != [] && multiset(s) == multiset(t) && Increasing(s) && InOrder(t)
    ensures t != [] && s[0] == t[0]
  {
    assert s[0] in multiset(t);
    var i :| 0 <= i < |t| && t[i] == s[0];
    assert t[0] in multiset(s);
    var j :| 0 <= j < |s| && s[j] == t[0];
    assert t[0].partID <= s[0].partID by {
      if i != 0 {
        assert CompareElements(t[0], t[i]) <= 0;
      }
    }
  }

  /** Past a shared head, two lists with the same entries have the same
      entries. */
  lemma SameRest(s: seq<StaffCount>, t: seq<StaffCount>)
    requires s != [] && t != [] && s[0] == t[0] && multiset(s) == multiset(t)
    ensures multiset(s[1..]) == multiset(t[1..])
  {
    assert s == [s[0]] + s[1..] && t == [t[0]] + t[1..];
    assert multiset(s[1..]) == multiset(s) - multiset{s[0]};
    assert multiset(t[1..]) == multiset(t) - multiset{t[0]};
  }

  /** Dropping the head keeps both orders. */
  lemma OrderedRest(s: seq<StaffCount>, t: seq<StaffCount>)
    requires s != [] && t != [] && Increasing(s) && InOrder(t)
    ensures Increasing(s[1..]) && InOrder(t[1..])
  {
    forall i, j | 0 <= i < j < |s| - 1
      ensures CompareElements(s[1..][i], s[1..][j]) == -1
    {
      assert s[1..][i] == s[i + 1] && s[1..][j] == s[j + 1];
    }
    forall i, j | 0 <= i < j < |t| - 1
      ensures CompareElements(t[1..][i], t[1..][j]) <= 0
    {
      assert t[1..][i] == t[i + 1] && t[1..][j] == t[j + 1];
    }
  }

  /** Sorting a list whose part numbers strictly increase gives back the
      same list: any list sorted by the comparator with the same entries
      is that list. */
  lemma {:induction false} SortKeeps(s: seq<StaffCount>, t: seq<StaffCount>)
    requires Increasing(s) && InOrder(t) && multiset(s) == multiset(t)
    ensures s == t
  {
    if s == [] {
      assert |t| == |multiset(t)| == 0;
    } else {
      SameHead(s, t);
      SameRest(s, t);
      OrderedRest(s, t);
      SortKeeps(s[1..], t[1..]);
      assert s == [s[0]] + s[1..] && t == [t[0]] + t[1..];
    }
  }

  /** The inner walk of determineExtraStaves over the row that starts at
      r: whether an island of the row shows tablature. */
  method RowHasTab(g: MusicGraph, r: Handle) returns (found: bool)
    requires g.Valid() && Ends(g.across, r)
    ensures found == RowShowsTab(g.Nodes(), g.across, r)
  {
    var nodes, across := g.Nodes(), g.across;
    ghost var row := Chain(across, r);
    var n := Some(r);
    var i := 0;
    while n.Some?
      invariant i <= |row|
      invariant n == if i < |row| then Some(row[i]) else None
      invariant forall k :: 0 <= k < i ==> !ShowsTab(nodes, row[k])
      decreases |row| - i
    {
      if ShowsTab(nodes, n.value) {
        return true;
      }
      ChainNext(across, r, i);
      n := across[n.value];
      i := i + 1;
    }
    return false;
  }

  /** The part of Score that lays out extra staves. */
  class Score {
    var extraStaves: seq<StaffCount>

    constructor ()
      ensures extraStaves == []
    {
      extraStaves := [];
    }

    /** Score::determineExtraStaves. */
    method DetermineExtraStaves(g: MusicGraph)
      requires g.Valid() && Walkable(g.MeshTables(), g.top)
      modifies this
      ensures extraStaves == Staves(g.Nodes(), g.across, Rows(g.MeshTables(), g.top))
    {
      ghost var rows := Rows(g.MeshTables(), g.top);
      extraStaves := [];
      var partCount := 0;
      var m := g.top;
      while m.Some?
        invariant partCount <= |rows|
        invariant m == if partCount < |rows| then Some(rows[partCount]) else None
        invariant extraStaves == Staves(g.Nodes(), g.across, rows[..partCount])
        decreases |rows| - partCount
      {
        var tab := RowHasTab(g, m.value);
        if tab {
          extraStaves := extraStaves + [StaffCount(partCount, 1)];
        }
        assert rows[..partCount + 1][..partCount] == rows[..partCount];
        ChainNext(g.down, g.top.value, partCount);
        m := g.down[m.value];
        partCount := partCount + 1;
      }
      assert rows[..partCount] == rows;
    }
  }
}
