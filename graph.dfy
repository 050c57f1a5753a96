/** The music graph: islands (one per part and instant) meshed by part-wise
    ("across") and instant-wise ("down") links, the tokens hanging off
    them, and the graph-wide operations that build, walk and label the
    mesh.

    prim::Graph owns heap nodes joined by typed links. Here a node is an
    integer handle into parallel sequences held by the graph object: its
    kind (with the fields its class carries), its first outgoing and first
    incoming link of each mesh kind (what Find returns forwards and
    backwards), its other outgoing links in the order they were added, its
    optional typesetting record and its custom data. */
module Graph {
  import opened Wrappers
  import opened Chains
  import Instruments
  import Decimal

  type Handle = nat

  /** MusicNode::TypesettingInfo: the part and instant an island was
      assigned by the geometry. */
  datatype TypesettingInfo = TypesettingInfo(partID: int, instantID: int)

  /** The instant-property concepts a Property node can carry. */
  datatype Concept = SystemBreak | OptionalBreak | RepeatingInstant | AbsorbedInstant

  /** The node classes of the graph with the fields each one carries.
      Concepts (clef and barline values, positions, keys) are held by
      name, "" standing for mica::Undefined; a chord's rhythmic values are
      held as the text they were read from. Deleted marks a node that has
      been deleted: its handle is never reused. */
  datatype NodeKind =
    | Island
    | PartToken
    | ClefToken(value: string)
    | BarlineToken(value: string)
    | MeterToken(value: string)
    | KeySignatureToken(key: string, keySignature: string)
    | ChordToken(duration: string, beat: string, instantDuration: string)
    | NoteNode(position: string, modifier: string)
    | StringedInstrument(instrument: Instruments.InstrumentValue)
    | TieSpan
    | Property(concept: Concept)
    | Deleted
  {
    /** Tokens are what an island's token links lead to. */
    predicate IsToken() {
      PartToken? || ClefToken? || BarlineToken? || MeterToken? || KeySignatureToken? ||
      ChordToken? || StringedInstrument?
    }
  }

  /** The link kinds other than the two mesh links. */
  datatype LinkKind = TokenLink | NoteLink | ContinuityLink | VoiceLink | FloatLink | PropertyLink

  datatype Link = Link(kind: LinkKind, to: Handle)

  /** The handles of the first links of a kind, in link order. */
  function Targets(ls: seq<Link>, kind: LinkKind): (r: seq<Handle>)
    ensures forall h :: h in r <==> Link(kind, h) in ls
    ensures |r| <= |ls|
  {
    if ls == [] then []
    else (if ls[0].kind == kind then [ls[0].to] else []) + Targets(ls[1..], kind)
  }

  /** The links of ls that are not of the given kind, in order. */
  function WithoutKind(ls: seq<Link>, kind: LinkKind): (r: seq<Link>)
    ensures forall l :: l in r <==> l in ls && l.kind != kind
  {
    if ls == [] then []
    else (if ls[0].kind == kind then [] else [ls[0]]) + WithoutKind(ls[1..], kind)
  }

  /** The node number i*cols + j of the island in row (part) i and column
      (instant) j of a mesh built row by row (written as repeated addition,
      so that the solver never sees a product of two unknowns). */
  function Cell(cols: nat, i: nat, j: nat): nat {
    if i == 0 then j else Cell(cols, i - 1, j) + cols
  }

  lemma CellNextRow(cols: nat, i: nat, j: nat)
    ensures Cell(cols, i + 1, j) == Cell(cols, i, j) + cols
  {
  }

  lemma {:induction false} CellIsProduct(cols: nat, i: nat, j: nat)
    ensures Cell(cols, i, j) == i * cols + j
  {
    if i > 0 {
      CellIsProduct(cols, i - 1, j);
    }
  }

  lemma {:induction false} CellRowBounds(cols: nat, i: nat, i2: nat, j2: nat)
    requires i < i2
    ensures Cell(cols, i + 1, 0) <= Cell(cols, i2, j2)
    decreases i2
  {
    if i + 1 < i2 {
      CellRowBounds(cols, i, i2 - 1, j2);
    } else {
      CellShift(cols, i + 1, j2);
    }
  }

  lemma {:induction false} CellShift(cols: nat, i: nat, j: nat)
    ensures Cell(cols, i, j) == Cell(cols, i, 0) + j
  {
    if i > 0 {
      CellShift(cols, i - 1, j);
    }
  }

  lemma CellInjective(cols: nat, i: nat, j: nat, i2: nat, j2: nat)
    requires j < cols && j2 < cols && Cell(cols, i, j) == Cell(cols, i2, j2)
    ensures i == i2 && j == j2
  {
    CellShift(cols, i, j);
    CellShift(cols, i2, j2);
    if i < i2 {
      CellRowBounds(cols, i, i2, j2);
    } else if i2 < i {
      CellRowBounds(cols, i2, i, j);
    }
  }

  lemma CellBelow(cols: nat, rows: nat, i: nat, j: nat)
    requires j < cols
    ensures Cell(cols, i, j) < Cell(cols, rows, 0) <==> i < rows
  {
    CellShift(cols, i, j);
    if i < rows {
      CellRowBounds(cols, i, rows, 0);
      CellNextRow(cols, i, 0);
    } else if rows < i {
      CellRowBounds(cols, rows, i, j);
      CellNextRow(cols, rows, 0);
    }
  }

  lemma {:induction false} CellAtLeast(cols: nat, i: nat, j: nat)
    requires cols >= 1
    ensures Cell(cols, i, j) >= i + j
  {
    if i > 0 {
      CellAtLeast(cols, i - 1, j);
    }
  }

  /** Represents the number of extra staves to display per part. */
  datatype StaffCount = StaffCount(partID: int, numExtra: int)

  /** ExtraStaff: a part index and how many extra staves it shows. */
  class ExtraStaff {
    var partID: int
    var numExtra: int

    function Value(): StaffCount
      reads this
    {
      StaffCount(partID, numExtra)
    }

    /** ExtraStaff(): part 0, no extra staff. */
    constructor ()
      ensures partID == 0 && numExtra == 0
    {
      partID, numExtra := 0, 0;
    }

    /** ExtraStaff(partID, numExtra): starts from zero and goes through the
        setters, so a negative argument leaves its field at 0. */
    constructor Make(p: int, n: int)
      ensures partID == (if p >= 0 then p else 0)
      ensures numExtra == (if n >= 0 then n else 0)
    {
      partID, numExtra := 0, 0;
      new;
      SetPartID(p);
      SetNumExtra(n);
    }

    /** SetPartID: a negative part index is ignored. */
    method SetPartID(p: int)
      modifies this
      ensures p >= 0 ==> partID == p
      ensures p < 0 ==> partID == old(partID)
      ensures numExtra == old(numExtra)
    {
      if p >= 0 {
        partID := p;
      }
    }

    /** SetNumExtra: a negative count is ignored. */
    method SetNumExtra(n: int)
      modifies this
      ensures n >= 0 ==> numExtra == n
      ensures n < 0 ==> numExtra == old(numExtra)
      ensures partID == old(partID)
    {
      if n >= 0 {
        numExtra := n;
      }
    }
  }

  /** ExtraStaffSortingComparator::compareElements: the sign of the
      comparison of the part indices. */
  function CompareElements(first: StaffCount, second: StaffCount): (r: int)
    ensures r == -1 || r == 0 || r == 1
    ensures r == -1 <==> first.partID < second.partID
    ensures r == 1 <==> second.partID < first.partID
    ensures r == 0 <==> first.partID == second.partID
  {
    if first.partID < second.partID then -1
    else if second.partID < first.partID then 1
    else 0
  }

  /** The comparator is antisymmetric and transitive, as sorting needs. */
  lemma CompareElementsOrder(a: StaffCount, b: StaffCount, c: StaffCount)
    ensures CompareElements(a, b) == -CompareElements(b, a)
    ensures CompareElements(a, b) <= 0 && CompareElements(b, c) <= 0 ==> CompareElements(a, c) <= 0
  {
  }

  /** The text of an island's unique ID once it has typesetting
      information. */
  function IslandID(t: TypesettingInfo): string {
    "island:" + Decimal.IntToString(t.partID) + "," + Decimal.IntToString(t.instantID)
  }

  /** The position of the first comma of a text that has one. */
  function FirstComma(s: string): nat
    requires ',' in s
  {
    if s[0] == ',' then 0 else 1 + FirstComma(s[1..])
  }

  lemma {:induction false} FirstCommaAfter(a: string, b: string)
    requires ',' !in a
    ensures ',' in a + "," + b && FirstComma(a + "," + b) == |a|
  {
    assert (a + "," + b)[|a|] == ',';
    if a != [] {
      assert (a + "," + b)[1..] == a[1..] + "," + b;
      FirstCommaAfter(a[1..], b);
    }
  }

  lemma SplitAtComma(a: string, b: string, a2: string, b2: string)
    requires ',' !in a && ',' !in a2
    requires a + "," + b == a2 + "," + b2
    ensures a == a2 && b == b2
  {
    var s := a + "," + b;
    FirstCommaAfter(a, b);
    FirstCommaAfter(a2, b2);
    assert a == s[..|a|] && a2 == s[..|a2|];
    assert b == s[|a| + 1..] && b2 == s[|a2| + 1..];
  }

  lemma NoCommaInNumber(i: int)
    ensures ',' !in Decimal.IntToString(i)
  {
    var s := Decimal.IntToString(i);
    forall k | 0 <= k < |s|
      ensures s[k] != ','
    {
      assert k == 0 || Decimal.IsDigit(s[k]);
    }
  }

  /** After its "island:" prefix an island ID is the part, a comma and the
      instant. */
  lemma IslandIDFields(t: TypesettingInfo)
    ensures |IslandID(t)| >= 7
    ensures IslandID(t)[7..] == Decimal.IntToString(t.partID) + "," + Decimal.IntToString(t.instantID)
  {
    var a, b := Decimal.IntToString(t.partID), Decimal.IntToString(t.instantID);
    assert IslandID(t) == "island:" + (a + "," + b);
  }

  /** Different parts or instants give different island IDs, so the IDs
      written out name islands unambiguously. */
  lemma IslandIDInjective(t: TypesettingInfo, u: TypesettingInfo)
    requires IslandID(t) == IslandID(u)
    ensures t == u
  {
    IslandIDFields(t);
    IslandIDFields(u);
    NoCommaInNumber(t.partID);
    NoCommaInNumber(u.partID);
    SplitAtComma(Decimal.IntToString(t.partID), Decimal.IntToString(t.instantID),
                 Decimal.IntToString(u.partID), Decimal.IntToString(u.instantID));
    Decimal.IntToStringInjective(t.partID, u.partID);
    Decimal.IntToStringInjective(t.instantID, u.instantID);
  }

  /** The class name of a node kind as MusicNode::UniqueID shortens and
      lower-cases it ("Token" and "Node" dropped, "KeySignature" read as
      "Key"). */
  function TypeName(k: NodeKind): string {
    match k
    case Island => "island"
    case PartToken => "part"
    case ClefToken(_) => "clef"
    case BarlineToken(_) => "barline"
    case MeterToken(_) => "meter"
    case KeySignatureToken(_, _) => "key"
    case ChordToken(_, _, _) => "chord"
    case NoteNode(_, _) => "note"
    case StringedInstrument(_) => "stringedinstrument"
    case TieSpan => "tiespan"
    case Property(_) => "property"
    case Deleted => "deleted"
  }

  /** MusicNode::UniqueID and Island::UniqueID for a node of the given kind,
      typesetting and custom data: an island with typesetting information
      is named by its part and instant, any other node by its type and its
      custom data (empty once cleared). */
  function UniqueID(k: NodeKind, t: Option<TypesettingInfo>, custom: Option<nat>): (s: string)
    ensures k.Island? && t.Some? ==> s == IslandID(t.value)
    ensures !(k.Island? && t.Some?) && custom.Some? ==>
      s == TypeName(k) + ":" + Decimal.IntToString(custom.value)
  {
    if k.Island? && t.Some? then IslandID(t.value)
    else TypeName(k) + ":" + (if custom.Some? then Decimal.IntToString(custom.value) else "")
  }

  /** The handles of the nodes that have not been deleted, in handle order:
      the node list prim's Gather produces. */
  function Gathered(kinds: seq<NodeKind>): (r: seq<Handle>)
    ensures forall i :: 0 <= i < |r| ==> r[i] < |kinds| && !kinds[r[i]].Deleted?
    ensures forall h :: 0 <= h < |kinds| && !kinds[h].Deleted? ==> h in r
    ensures forall i, j :: 0 <= i < j < |r| ==> r[i] < r[j]
  {
    if kinds == [] then []
    else
      var n := |kinds| - 1;
      Gathered(kinds[..n]) + (if kinds[n].Deleted? then [] else [n])
  }

  /** Every link of succ out of an island leads to an island. */
  predicate IslandsLinked(kinds: seq<NodeKind>, succ: Successors) {
    forall h :: 0 <= h < |kinds| && h < |succ| && kinds[h].Island? && succ[h].Some? ==>
      succ[h].value < |kinds| && kinds[succ[h].value].Island?
  }

  /** Following such links from an island meets only islands. */
  lemma {:induction false} IslandChain(kinds: seq<NodeKind>, succ: Successors, h: Handle, i: nat)
    requires IslandsLinked(kinds, succ) && |succ| == |kinds| && h < |kinds| && kinds[h].Island?
    requires Ends(succ, h) && i < |Chain(succ, h)|
    ensures kinds[Chain(succ, h)[i]].Island?
    decreases i
  {
    if i > 0 {
      IslandChain(kinds, succ, h, i - 1);
      ChainNext(succ, h, i - 1);
    }
  }

  /** n copies of x. */
  function Filled<T>(x: T, n: nat): (r: seq<T>)
    ensures |r| == n && forall i :: 0 <= i < n ==> r[i] == x
  {
    seq(n, _ => x)
  }

  lemma FilledStep<T>(x: T, n: nat)
    ensures Filled(x, n + 1) == Filled(x, n) + [x]
  {
  }

  lemma FilledAfter<T>(s: seq<T>, x: T, n: nat)
    ensures s + Filled(x, n + 1) == s + Filled(x, n) + [x]
  {
    FilledStep(x, n);
  }

  /** The column of node h of a mesh of cols columns built row by row:
      counting restarts at 0 after the last column. */
  function ColOf(cols: nat, h: nat): (c: nat)
    requires cols >= 1
    ensures c < cols
  {
    if h == 0 then 0
    else if ColOf(cols, h - 1) + 1 == cols then 0
    else ColOf(cols, h - 1) + 1
  }

  lemma {:induction false} ColOfCell(cols: nat, i: nat, j: nat)
    requires j < cols
    ensures ColOf(cols, Cell(cols, i, j)) == j
    decreases i, j
  {
    CellShift(cols, i, j);
    if j > 0 {
      CellShift(cols, i, j - 1);
      ColOfCell(cols, i, j - 1);
    } else if i > 0 {
      CellShift(cols, i - 1, cols - 1);
      ColOfCell(cols, i - 1, cols - 1);
    }
  }

  /* The link tables of the first n islands of a mesh of cols columns
     numbered row by row: an island is linked across to the next one
     unless that starts a new row, and down to the island cols places
     later; the backward tables mirror them. */

  function AcrossTable(cols: nat, n: nat): (r: seq<Option<Handle>>)
    requires cols >= 1
  {
    seq(n, (h: nat) => if h + 1 < n && ColOf(cols, h + 1) > 0 then Some(h + 1) else None)
  }

  function AcrossFromTable(cols: nat, n: nat): (r: seq<Option<Handle>>)
    requires cols >= 1
  {
    seq(n, (h: nat) => if ColOf(cols, h) > 0 then Some(h - 1) else None)
  }

  function DownTable(cols: nat, n: nat): (r: seq<Option<Handle>>) {
    seq(n, (h: nat) => if h + cols < n then Some(h + cols) else None)
  }

  function DownFromTable(cols: nat, n: nat): (r: seq<Option<Handle>>) {
    seq(n, (h: nat) => if h >= cols then Some(h - cols) else None)
  }

  /** The island a mesh of cols columns links island n across from: the
      one before it, unless n starts a row. */
  function LeftOf(cols: nat, n: nat): (r: Option<Handle>)
    requires cols >= 1
    ensures r.Some? ==> r.value < n
  {
    if ColOf(cols, n) > 0 then Some(n - 1) else None
  }

  /** The island a mesh of cols columns links island n down from: the one
      cols places before it, unless n is in the first row. */
  function AboveOf(cols: nat, n: nat): (r: Option<Handle>)
    requires cols >= 1
    ensures r.Some? ==> r.value < n
  {
    if n >= cols then Some(n - cols) else None
  }

  /** The mesh tables of islands 0 .. n - 1 as CreateIslands builds them,
      one island after the other, cols to a row. */
  function MeshOf(cols: nat, n: nat): (t: MeshLinks)
    requires cols >= 1
    ensures t.Sized(n)
  {
    if n == 0 then MeshLinks([], [], [], [])
    else Linked(MeshOf(cols, n - 1), LeftOf(cols, n - 1), AboveOf(cols, n - 1))
  }

  /** The four tables of a mesh of n islands, cols to a row. */
  function TablesOf(cols: nat, n: nat): (t: MeshLinks)
    requires cols >= 1
    ensures t.Sized(n)
  {
    MeshLinks(AcrossTable(cols, n), AcrossFromTable(cols, n), DownTable(cols, n), DownFromTable(cols, n))
  }

  /* The tables of a mesh of m + 1 islands are those of m islands with
     island m appended and linked across from LeftOf(cols, m) and down
     from AboveOf(cols, m), table by table. */

  lemma AcrossTableStep(cols: nat, m: nat)
    requires cols >= 1
    ensures AcrossTable(cols, m + 1) == Linked(TablesOf(cols, m), LeftOf(cols, m), AboveOf(cols, m)).across
  {
    var r := Linked(TablesOf(cols, m), LeftOf(cols, m), AboveOf(cols, m)).across;
    forall h | 0 <= h < m + 1
      ensures AcrossTable(cols, m + 1)[h] == r[h]
    {
    }
  }

  lemma AcrossFromTableStep(cols: nat, m: nat)
    requires cols >= 1
    ensures AcrossFromTable(cols, m + 1) == Linked(TablesOf(cols, m), LeftOf(cols, m), AboveOf(cols, m)).acrossFrom
  {
    var r := Linked(TablesOf(cols, m), LeftOf(cols, m), AboveOf(cols, m)).acrossFrom;
    forall h | 0 <= h < m + 1
      ensures AcrossFromTable(cols, m + 1)[h] == r[h]
    {
    }
  }

  lemma DownTableStep(cols: nat, m: nat)
    requires cols >= 1
    ensures DownTable(cols, m + 1) == Linked(TablesOf(cols, m), LeftOf(cols, m), AboveOf(cols, m)).down
  {
    var r := Linked(TablesOf(cols, m), LeftOf(cols, m), AboveOf(cols, m)).down;
    forall h | 0 <= h < m + 1
      ensures DownTable(cols, m + 1)[h] == r[h]
    {
    }
  }

  lemma DownFromTableStep(cols: nat, m: nat)
    requires cols >= 1
    ensures DownFromTable(cols, m + 1) == Linked(TablesOf(cols, m), LeftOf(cols, m), AboveOf(cols, m)).downFrom
  {
    var r := Linked(TablesOf(cols, m), LeftOf(cols, m), AboveOf(cols, m)).downFrom;
    forall h | 0 <= h < m + 1
      ensures DownFromTable(cols, m + 1)[h] == r[h]
    {
    }
  }

  /** The mesh built island by island links every island to its
      neighbours in its row and column, as the tables say. */
  lemma {:induction false} MeshOfTables(cols: nat, n: nat)
    requires cols >= 1
    ensures MeshOf(cols, n) == TablesOf(cols, n)
  {
    if n > 0 {
      MeshOfTables(cols, n - 1);
      AcrossTableStep(cols, n - 1);
      AcrossFromTableStep(cols, n - 1);
      DownTableStep(cols, n - 1);
      DownFromTableStep(cols, n - 1);
    }
  }

  /** Inside a row of a mesh of n islands whose last island x is in the
      same column as previous, the island above x: previous's across
      successor is the island above the next island n, which follows x in
      its row. */
  lemma InnerLinks(cols: nat, n: nat, previous: nat)
    requires cols >= 1 && previous + cols + 1 == n
    requires ColOf(cols, n - 1) + 1 < cols && ColOf(cols, previous) == ColOf(cols, n - 1)
    ensures MeshOf(cols, n).across[previous] == Some(previous + 1)
    ensures LeftOf(cols, n) == Some(n - 1) && AboveOf(cols, n) == Some(previous + 1)
    ensures ColOf(cols, n) == ColOf(cols, n - 1) + 1 && ColOf(cols, previous + 1) == ColOf(cols, n)
  {
    MeshLinksAt(cols, n, previous);
  }

  /** The links of island h in a mesh of n islands, cols to a row. */
  lemma MeshLinksAt(cols: nat, n: nat, h: nat)
    requires cols >= 1 && h < n
    ensures MeshOf(cols, n).across[h] == if h + 1 < n && ColOf(cols, h + 1) > 0 then Some(h + 1) else None
    ensures MeshOf(cols, n).down[h] == if h + cols < n then Some(h + cols) else None
  {
    MeshOfTables(cols, n);
  }

  /** Read at the islands' coordinates, the across tables of a complete
      mesh of rows by cols islands link each island to its neighbours in
      its row. */
  lemma GridAcross(rows: nat, cols: nat, i: nat, j: nat)
    requires cols >= 1 && i < rows && j < cols
    ensures var n := Cell(cols, rows, 0);
      && Cell(cols, i, j) < n
      && AcrossTable(cols, n)[Cell(cols, i, j)] == (if j + 1 < cols then Some(Cell(cols, i, j + 1)) else None)
      && AcrossFromTable(cols, n)[Cell(cols, i, j)] == (if j > 0 then Some(Cell(cols, i, j - 1)) else None)
  {
    CellBelow(cols, rows, i, j);
    CellShift(cols, i, j);
    ColOfCell(cols, i, j);
    if j + 1 < cols {
      CellShift(cols, i, j + 1);
      CellBelow(cols, rows, i, j + 1);
      ColOfCell(cols, i, j + 1);
    } else {
      CellShift(cols, i + 1, 0);
      CellNextRow(cols, i, 0);
      ColOfCell(cols, i + 1, 0);
    }
    if j > 0 {
      CellShift(cols, i, j - 1);
    }
  }

  /** Read at the islands' coordinates, the down tables of a complete mesh
      of rows by cols islands link each island to its neighbours in its
      column. */
  lemma GridDown(rows: nat, cols: nat, i: nat, j: nat)
    requires cols >= 1 && i < rows && j < cols
    ensures var n := Cell(cols, rows, 0);
      && Cell(cols, i, j) < n
      && DownTable(cols, n)[Cell(cols, i, j)] == (if i + 1 < rows then Some(Cell(cols, i + 1, j)) else None)
      && DownFromTable(cols, n)[Cell(cols, i, j)] == (if i > 0 then Some(Cell(cols, i - 1, j)) else None)
  {
    CellBelow(cols, rows, i, j);
    CellNextRow(cols, i, j);
    CellBelow(cols, rows, i + 1, j);
    if i > 0 {
      CellNextRow(cols, i - 1, j);
    } else {
      CellShift(cols, 0, j);
    }
  }

  /** The islands of the first j instants of a mesh of rows parts by cols
      instants, instant by instant, each instant from the top part down. */
  function ColumnMajor(cols: nat, rows: nat, j: nat): (r: seq<nat>)
    ensures |r| == Cell(rows, j, 0)
  {
    if j == 0 then [] else ColumnMajor(cols, rows, j - 1) + seq(rows, (k: nat) => Cell(cols, k, j - 1))
  }

  /** What AddLink leaves as a node's first link of a kind: the link it
      already had, if any, else the new one. */
  function FirstWins(link: Option<Handle>, to: Handle): (r: Option<Handle>)
    ensures r.Some?
    ensures link.Some? ==> r == link
    ensures link.None? ==> r == Some(to)
  {
    if link.Some? then link else Some(to)
  }

  /** The per-node tables of a graph other than the mesh links. */
  datatype NodeTables = NodeTables(kinds: seq<NodeKind>, links: seq<seq<Link>>,
                                   typesetting: seq<Option<TypesettingInfo>>,
                                   customData: seq<Option<nat>>)

  /** The tables after appending n islands with no other links, no
      typesetting information and no custom data. */
  function PlusIslands(p: NodeTables, n: nat): (r: NodeTables)
    ensures |r.kinds| == |p.kinds| + n
  {
    NodeTables(p.kinds + Filled(Island, n), p.links + Filled([], n),
               p.typesetting + Filled(None, n), p.customData + Filled(None, n))
  }

  lemma PlusIslandsStep(p: NodeTables, n: nat)
    ensures PlusIslands(PlusIslands(p, n), 1) == PlusIslands(p, n + 1)
  {
    FilledAfter(p.kinds, Island, n);
    FilledAfter<seq<Link>>(p.links, [], n);
    FilledAfter<Option<TypesettingInfo>>(p.typesetting, None, n);
    FilledAfter<Option<nat>>(p.customData, None, n);
  }

  /** The four mesh link tables of a graph. */
  datatype MeshLinks = MeshLinks(across: seq<Option<Handle>>, acrossFrom: seq<Option<Handle>>,
                                 down: seq<Option<Handle>>, downFrom: seq<Option<Handle>>)
  {
    predicate Sized(n: nat) {
      |across| == n && |acrossFrom| == n && |down| == n && |downFrom| == n
    }
  }

  /** The tables after adding island y == |t.across|, linked across from
      beside and down from above where those are given. */
  function Linked(t: MeshLinks, beside: Option<Handle>, above: Option<Handle>): (r: MeshLinks)
    requires t.Sized(|t.across|)
    requires beside.Some? ==> beside.value < |t.across|
    requires above.Some? ==> above.value < |t.across|
    ensures r.Sized(|t.across| + 1)
  {
    var y := |t.across|;
    var A, AF, D, DF := t.across + [None], t.acrossFrom + [None], t.down + [None], t.downFrom + [None];
    MeshLinks(if beside.Some? then A[beside.value := FirstWins(A[beside.value], y)] else A,
              if beside.Some? then AF[y := FirstWins(AF[y], beside.value)] else AF,
              if above.Some? then D[above.value := FirstWins(D[above.value], y)] else D,
              if above.Some? then DF[y := FirstWins(DF[y], above.value)] else DF)
  }

  /** A member of a column without repetitions is not among those before it. */
  lemma FreshInColumn(col: seq<Handle>, n: nat)
    requires n < |col|
    requires forall i, j :: 0 <= i < j < |col| ==> col[i] != col[j]
    ensures col[n] !in col[..n]
  {
    forall i | 0 <= i < n
      ensures col[..n][i] != col[n]
    {
    }
  }

  /** The across table after AppendColumn has made count islands beside
      the column col, as its loop makes them: island |across0| + k is
      linked across from col[k], which keeps an across link it already
      had. */
  function ColumnAcrossTable(across0: seq<Option<Handle>>, col: seq<Handle>, count: nat): (r: seq<Option<Handle>>)
    requires count <= |col|
    requires forall k :: 0 <= k < |col| ==> col[k] < |across0|
    ensures |r| == |across0| + count
  {
    if count == 0 then across0
    else
      var A, x := ColumnAcrossTable(across0, col, count - 1) + [None], col[count - 1];
      A[x := FirstWins(A[x], |across0| + count - 1)]
  }

  /** Island n0 + k of the new column is the across successor of col[k]
      unless col[k] already had one; no other across link changes and the
      new islands have none. */
  ghost predicate AcrossAdded(col: seq<Handle>, count: nat, across0: seq<Option<Handle>>,
                              across: seq<Option<Handle>>)
  {
    var n0 := |across0|;
    && count <= |col| && |across| == n0 + count
    && (forall k :: 0 <= k < |col| ==> col[k] < n0)
    && (forall h :: 0 <= h < n0 && h !in col[..count] ==> across[h] == across0[h])
    && (forall k :: 0 <= k < count ==> across[col[k]] == FirstWins(across0[col[k]], n0 + k))
    && (forall h :: n0 <= h < n0 + count ==> across[h].None?)
  }

  /** Linking island n0 + count beside col[count] extends AcrossAdded. */
  lemma AcrossAddedStep(col: seq<Handle>, count: nat, across0: seq<Option<Handle>>,
                        across: seq<Option<Handle>>)
    requires AcrossAdded(col, count, across0, across) && count < |col|
    requires forall i, j :: 0 <= i < j < |col| ==> col[i] != col[j]
    ensures var A := across + [None]; var x := col[count];
      AcrossAdded(col, count + 1, across0, A[x := FirstWins(A[x], |across0| + count)])
  {
    var n0, x, A := |across0|, col[count], across + [None];
    var a := A[x := FirstWins(A[x], n0 + count)];
    FreshInColumn(col, count);
    forall h | 0 <= h < n0 && h !in col[..count + 1]
      ensures a[h] == across0[h]
    {
      assert col[..count + 1] == col[..count] + [x];
    }
    forall k | 0 <= k < count + 1
      ensures a[col[k]] == FirstWins(across0[col[k]], n0 + k)
    {
      if k < count {
        assert col[k] != x;
      }
    }
  }

  /** What the new column's across links amount to. */
  lemma {:induction false} ColumnAcrossAdded(across0: seq<Option<Handle>>, col: seq<Handle>, count: nat)
    requires count <= |col|
    requires forall k :: 0 <= k < |col| ==> col[k] < |across0|
    requires forall i, j :: 0 <= i < j < |col| ==> col[i] != col[j]
    ensures AcrossAdded(col, count, across0, ColumnAcrossTable(across0, col, count))
    decreases count
  {
    if count > 0 {
      ColumnAcrossAdded(across0, col, count - 1);
      AcrossAddedStep(col, count - 1, across0, ColumnAcrossTable(across0, col, count - 1));
    }
  }

  /** The mesh tables after AppendColumn has made count islands beside the
      column col, numbered from n0 == |t0.across|: island n0 + k is linked
      across from col[k] and down from island n0 + k - 1. */
  function ColumnForm(t0: MeshLinks, col: seq<Handle>, count: nat): (t: MeshLinks)
    requires t0.Sized(|t0.across|) && count <= |col|
    requires forall k :: 0 <= k < |col| ==> col[k] < |t0.across|
    ensures t.Sized(|t0.across| + count)
  {
    var n0 := |t0.across|;
    MeshLinks(ColumnAcrossTable(t0.across, col, count),
              t0.acrossFrom + seq(count, (k: nat) requires k < count => Some(col[k])),
              t0.down + seq(count, (k: nat) => if k + 1 < count then Some(n0 + k + 1) else None),
              t0.downFrom + seq(count, (k: nat) => if k > 0 then Some(n0 + k - 1) else None))
  }

  /** Before the first island the tables are the old ones. */
  lemma ColumnFormStart(t0: MeshLinks, col: seq<Handle>)
    requires t0.Sized(|t0.across|)
    requires forall k :: 0 <= k < |col| ==> col[k] < |t0.across|
    ensures ColumnForm(t0, col, 0) == t0
  {
  }

  /** The island above island n0 + count of the new column. */
  function AboveInColumn(n0: nat, count: nat): (r: Option<Handle>)
    ensures r.Some? ==> r.value < n0 + count
  {
    if count > 0 then Some(n0 + count - 1) else None
  }

  /* Each island AppendColumn adds takes the tables from ColumnForm at
     count to ColumnForm at count + 1, table by table. */

  lemma ColumnAcrossFromAt(t0: MeshLinks, col: seq<Handle>, count: nat, h: nat)
    requires t0.Sized(|t0.across|) && count < |col| && h < |t0.across| + count + 1
    requires forall k :: 0 <= k < |col| ==> col[k] < |t0.across|
    ensures ColumnForm(t0, col, count + 1).acrossFrom[h]
         == Linked(ColumnForm(t0, col, count), Some(col[count]), AboveInColumn(|t0.across|, count)).acrossFrom[h]
  {
  }

  lemma ColumnDownAt(t0: MeshLinks, col: seq<Handle>, count: nat, h: nat)
    requires t0.Sized(|t0.across|) && count < |col| && h < |t0.across| + count + 1
    requires forall k :: 0 <= k < |col| ==> col[k] < |t0.across|
    ensures ColumnForm(t0, col, count + 1).down[h]
         == Linked(ColumnForm(t0, col, count), Some(col[count]), AboveInColumn(|t0.across|, count)).down[h]
  {
  }

  lemma ColumnDownFromAt(t0: MeshLinks, col: seq<Handle>, count: nat, h: nat)
    requires t0.Sized(|t0.across|) && count < |col| && h < |t0.across| + count + 1
    requires forall k :: 0 <= k < |col| ==> col[k] < |t0.across|
    ensures ColumnForm(t0, col, count + 1).downFrom[h]
         == Linked(ColumnForm(t0, col, count), Some(col[count]), AboveInColumn(|t0.across|, count)).downFrom[h]
  {
  }

  lemma ColumnAcrossFromStep(t0: MeshLinks, col: seq<Handle>, count: nat)
    requires t0.Sized(|t0.across|) && count < |col|
    requires forall k :: 0 <= k < |col| ==> col[k] < |t0.across|
    ensures ColumnForm(t0, col, count + 1).acrossFrom
         == Linked(ColumnForm(t0, col, count), Some(col[count]), AboveInColumn(|t0.across|, count)).acrossFrom
  {
    var u := ColumnForm(t0, col, count + 1).acrossFrom;
    var r := Linked(ColumnForm(t0, col, count), Some(col[count]), AboveInColumn(|t0.across|, count)).acrossFrom;
    forall h | 0 <= h < |t0.across| + count + 1
      ensures u[h] == r[h]
    {
      ColumnAcrossFromAt(t0, col, count, h);
    }
  }

  lemma ColumnDownStep(t0: MeshLinks, col: seq<Handle>, count: nat)
    requires t0.Sized(|t0.across|) && count < |col|
    requires forall k :: 0 <= k < |col| ==> col[k] < |t0.across|
    ensures ColumnForm(t0, col, count + 1).down
         == Linked(ColumnForm(t0, col, count), Some(col[count]), AboveInColumn(|t0.across|, count)).down
  {
    var u := ColumnForm(t0, col, count + 1).down;
    var r := Linked(ColumnForm(t0, col, count), Some(col[count]), AboveInColumn(|t0.across|, count)).down;
    forall h | 0 <= h < |t0.across| + count + 1
      ensures u[h] == r[h]
    {
      ColumnDownAt(t0, col, count, h);
    }
  }

  lemma ColumnDownFromStep(t0: MeshLinks, col: seq<Handle>, count: nat)
    requires t0.Sized(|t0.across|) && count < |col|
    requires forall k :: 0 <= k < |col| ==> col[k] < |t0.across|
    ensures ColumnForm(t0, col, count + 1).downFrom
         == Linked(ColumnForm(t0, col, count), Some(col[count]), AboveInColumn(|t0.across|, count)).downFrom
  {
    var u := ColumnForm(t0, col, count + 1).downFrom;
    var r := Linked(ColumnForm(t0, col, count), Some(col[count]), AboveInColumn(|t0.across|, count)).downFrom;
    forall h | 0 <= h < |t0.across| + count + 1
      ensures u[h] == r[h]
    {
      ColumnDownFromAt(t0, col, count, h);
    }
  }

  lemma ColumnStep(t0: MeshLinks, col: seq<Handle>, count: nat)
    requires t0.Sized(|t0.across|) && count < |col|
    requires forall k :: 0 <= k < |col| ==> col[k] < |t0.across|
    requires forall i, j :: 0 <= i < j < |col| ==> col[i] != col[j]
    ensures ColumnForm(t0, col, count + 1)
         == Linked(ColumnForm(t0, col, count), Some(col[count]), AboveInColumn(|t0.across|, count))
  {
    ColumnAcrossFromStep(t0, col, count);
    ColumnDownStep(t0, col, count);
    ColumnDownFromStep(t0, col, count);
  }

  /** In a mesh of rows parts by cols instants, the part through island
      (i, 0) runs across the cols consecutive islands of row i. */
  lemma RowChain(rows: nat, cols: nat, i: nat)
    requires cols >= 1 && i < rows
    ensures var t := AcrossTable(cols, Cell(cols, rows, 0));
      && Ends(t, Cell(cols, i, 0))
      && Chain(t, Cell(cols, i, 0)) == seq(cols, (k: nat) => Cell(cols, i, 0) + k)
  {
    var t := AcrossTable(cols, Cell(cols, rows, 0));
    var a := Cell(cols, i, 0);
    RowStep(rows, cols, i, cols - 1);
    forall x | a <= x < a + cols - 1
      ensures t[x] == Some(x + 1)
    {
      RowStep(rows, cols, i, x - a);
    }
    RunChain(t, a, cols);
  }

  /** Island (i, j) of a mesh, counted from the row's first island, and
      its across link. */
  lemma RowStep(rows: nat, cols: nat, i: nat, j: nat)
    requires cols >= 1 && i < rows && j < cols
    ensures var t := AcrossTable(cols, Cell(cols, rows, 0)); var a := Cell(cols, i, 0);
      && a + j < |t|
      && t[a + j] == if j + 1 < cols then Some(a + j + 1) else None
  {
    CellShift(cols, i, j);
    GridAcross(rows, cols, i, j);
    if j + 1 < cols {
      CellShift(cols, i, j + 1);
    }
  }

  lemma {:induction false} ColumnWithin(rows: nat, cols: nat, i: nat, j: nat)
    requires cols >= 1 && i < rows && j < cols
    ensures var t := DownTable(cols, Cell(cols, rows, 0));
      && EndsWithin(t, Cell(cols, i, j), rows - i)
      && ChainWithin(t, Cell(cols, i, j), rows - i) == seq(rows - i, (k: nat) => Cell(cols, i + k, j))
    decreases rows - i
  {
    GridDown(rows, cols, i, j);
    if i + 1 < rows {
      ColumnWithin(rows, cols, i + 1, j);
      assert seq(rows - i, (k: nat) => Cell(cols, i + k, j))
        == [Cell(cols, i, j)] + seq(rows - (i + 1), (k: nat) => Cell(cols, i + 1 + k, j));
    }
  }

  /** In a mesh of rows parts by cols instants, the instant through island
      (0, j) runs down column j. */
  lemma ColumnChain(rows: nat, cols: nat, j: nat)
    requires cols >= 1 && rows >= 1 && j < cols
    ensures var t := DownTable(cols, Cell(cols, rows, 0));
      && Ends(t, j) && Chain(t, j) == seq(rows, (k: nat) => Cell(cols, k, j))
  {
    var t := DownTable(cols, Cell(cols, rows, 0));
    ColumnWithin(rows, cols, 0, j);
    CellAtLeast(cols, rows, 0);
    EndsWithinMore(t, j, rows, |t|);
  }

  /** The handles below a + b: those below a, then b more from a. */
  lemma RangeSplit(a: nat, b: nat)
    ensures seq(a + b, (h: nat) => h) == seq(a, (h: nat) => h) + seq(b, (x: nat) => a + x)
  {
  }

  /** Sweeping the rows of a mesh whose parts each run across cols
      consecutive islands visits the first i rows' islands in numbering
      order. */
  lemma {:induction false} SweepOfRows(succ: Successors, cols: nat, i: nat)
    requires forall k :: 0 <= k < i ==>
      Ends(succ, Cell(cols, k, 0)) && Chain(succ, Cell(cols, k, 0)) == seq(cols, (x: nat) => Cell(cols, k, 0) + x)
    ensures AllEnd(succ, seq(i, (k: nat) => Cell(cols, k, 0)))
    ensures Sweep(succ, seq(i, (k: nat) => Cell(cols, k, 0))) == seq(Cell(cols, i, 0), (h: nat) => h)
    decreases i
  {
    var heads := seq(i, (k: nat) => Cell(cols, k, 0));
    if i > 0 {
      assert heads[..i - 1] == seq(i - 1, (k: nat) => Cell(cols, k, 0));
      SweepOfRows(succ, cols, i - 1);
      CellNextRow(cols, i - 1, 0);
      RangeSplit(Cell(cols, i - 1, 0), cols);
    }
  }

  /** Sweeping the instants of a mesh whose instants each run down rows
      islands visits the first j instants' islands column by column. */
  lemma {:induction false} SweepOfColumns(succ: Successors, rows: nat, cols: nat, j: nat)
    requires forall k :: 0 <= k < j ==>
      Ends(succ, k) && Chain(succ, k) == seq(rows, (x: nat) => Cell(cols, x, k))
    ensures AllEnd(succ, seq(j, (x: nat) => x))
    ensures Sweep(succ, seq(j, (x: nat) => x)) == ColumnMajor(cols, rows, j)
    decreases j
  {
    var heads := seq(j, (x: nat) => x);
    if j > 0 {
      assert heads[..j - 1] == seq(j - 1, (x: nat) => x);
      SweepOfColumns(succ, rows, cols, j - 1);
    }
  }

  class MusicGraph {
    var kinds: seq<NodeKind>
    var across: seq<Option<Handle>>
    var acrossFrom: seq<Option<Handle>>
    var down: seq<Option<Handle>>
    var downFrom: seq<Option<Handle>>
    var links: seq<seq<Link>>
    var typesetting: seq<Option<TypesettingInfo>>
    var customData: seq<Option<nat>>
    var top: Option<Handle>

    /** All tables cover the same nodes and every link stays inside the
        graph. */
    predicate Valid()
      reads this
    {
      && |across| == |kinds| && |acrossFrom| == |kinds|
      && |down| == |kinds| && |downFrom| == |kinds|
      && |links| == |kinds| && |typesetting| == |kinds| && |customData| == |kinds|
      && Closed(across) && Closed(acrossFrom) && Closed(down) && Closed(downFrom)
      && (top.Some? ==> top.value < |kinds|)
      && (forall h, l :: 0 <= h < |links| && l in links[h] ==> l.to < |kinds|)
    }

    /** An empty graph. */
    constructor ()
      ensures Valid() && kinds == [] && top.None?
    {
      kinds, across, acrossFrom, down, downFrom := [], [], [], [], [];
      links, typesetting, customData, top := [], [], [], None;
    }

    /** Allocates a node of the given kind with no links, no typesetting
        information and no custom data. */
    method AddNode(k: NodeKind) returns (h: Handle)
      requires Valid()
      modifies this
      ensures Valid()
      ensures h == |old(kinds)| && kinds == old(kinds) + [k]
      ensures across == old(across) + [None] && acrossFrom == old(acrossFrom) + [None]
      ensures down == old(down) + [None] && downFrom == old(downFrom) + [None]
      ensures links == old(links) + [[]]
      ensures typesetting == old(typesetting) + [None] && customData == old(customData) + [None]
      ensures top == old(top)
    {
      h := |kinds|;
      kinds := kinds + [k];
      across, acrossFrom := across + [None], acrossFrom + [None];
      down, downFrom := down + [None], downFrom + [None];
      links := links + [[]];
      typesetting, customData := typesetting + [None], customData + [None];
    }

    /** AddLink(b, PartWiseLink) on a: the link is what a's forward Find
        and b's backward Find return unless they already had one. */
    method AddAcross(a: Handle, b: Handle)
      requires Valid() && a < |kinds| && b < |kinds|
      modifies this
      ensures Valid()
      ensures across == old(across)[a := FirstWins(old(across)[a], b)]
      ensures acrossFrom == old(acrossFrom)[b := FirstWins(old(acrossFrom)[b], a)]
      ensures kinds == old(kinds) && down == old(down) && downFrom == old(downFrom)
      ensures links == old(links) && typesetting == old(typesetting)
      ensures customData == old(customData) && top == old(top)
    {
      if across[a].None? {
        across := across[a := Some(b)];
      }
      if acrossFrom[b].None? {
        acrossFrom := acrossFrom[b := Some(a)];
      }
    }

    /** AddLink(b, InstantWiseLink) on a. */
    method AddDown(a: Handle, b: Handle)
      requires Valid() && a < |kinds| && b < |kinds|
      modifies this
      ensures Valid()
      ensures down == old(down)[a := FirstWins(old(down)[a], b)]
      ensures downFrom == old(downFrom)[b := FirstWins(old(downFrom)[b], a)]
      ensures kinds == old(kinds) && across == old(across) && acrossFrom == old(acrossFrom)
      ensures links == old(links) && typesetting == old(typesetting)
      ensures customData == old(customData) && top == old(top)
    {
      if down[a].None? {
        down := down[a := Some(b)];
      }
      if downFrom[b].None? {
        downFrom := downFrom[b := Some(a)];
      }
    }

    /** AddLink(b, kind) on a for a link other than the mesh links. */
    method AddLink(a: Handle, kind: LinkKind, b: Handle)
      requires Valid() && a < |kinds| && b < |kinds|
      modifies this
      ensures Valid()
      ensures links == old(links)[a := old(links)[a] + [Link(kind, b)]]
      ensures kinds == old(kinds) && across == old(across) && acrossFrom == old(acrossFrom)
      ensures down == old(down) && downFrom == old(downFrom) && typesetting == old(typesetting)
      ensures customData == old(customData) && top == old(top)
    {
      links := links[a := links[a] + [Link(kind, b)]];
    }

    /** Find(kind) on h: the target of h's first link of that kind. */
    function Find(h: Handle, kind: LinkKind): (r: Option<Handle>)
      reads this
      requires Valid() && h < |kinds|
      ensures r.Some? <==> Targets(links[h], kind) != []
      ensures r.Some? ==> r.value == Targets(links[h], kind)[0] && r.value < |kinds|
    {
      var ts := Targets(links[h], kind);
      if ts == [] then None
      else
        assert Link(kind, ts[0]) in links[h];
        Some(ts[0])
    }

    /** Deletes a node: it is marked deleted and every link out of it is
        dropped, as its destructor unlinks it. */
    method DeleteNode(h: Handle)
      requires Valid() && h < |kinds|
      modifies this
      ensures Valid()
      ensures kinds == old(kinds)[h := Deleted] && links == old(links)[h := []]
      ensures across == old(across) && acrossFrom == old(acrossFrom)
      ensures down == old(down) && downFrom == old(downFrom)
      ensures typesetting == old(typesetting) && customData == old(customData) && top == old(top)
    {
      kinds := kinds[h := Deleted];
      links := links[h := []];
    }

    /** Gives a node a fresh TypesettingInfo, whose part and instant are
        both -1 until the geometry assigns them. */
    method AllocateTypesetting(h: Handle)
      requires Valid() && h < |kinds|
      modifies this
      ensures Valid()
      ensures typesetting == old(typesetting)[h := Some(TypesettingInfo(-1, -1))]
      ensures kinds == old(kinds) && links == old(links)
      ensures across == old(across) && acrossFrom == old(acrossFrom)
      ensures down == old(down) && downFrom == old(downFrom)
      ensures customData == old(customData) && top == old(top)
    {
      typesetting := typesetting[h := Some(TypesettingInfo(-1, -1))];
    }

    /** MusicGraph::Clear: deletes every island with everything hanging off
        it and leaves the graph without a top. */
    method Clear()
      modifies this
      ensures Valid() && kinds == [] && top.None?
    {
      kinds, across, acrossFrom, down, downFrom := [], [], [], [], [];
      links, typesetting, customData, top := [], [], [], None;
    }

    /** MusicGraph::SetTop. */
    method SetTop(h: Option<Handle>)
      requires Valid() && (h.Some? ==> h.value < |kinds|)
      modifies this
      ensures Valid() && top == h
      ensures kinds == old(kinds) && links == old(links)
      ensures across == old(across) && acrossFrom == old(acrossFrom)
      ensures down == old(down) && downFrom == old(downFrom)
      ensures typesetting == old(typesetting) && customData == old(customData)
    {
      top := h;
    }

    /** MusicGraph::SetCustomDataToIDs: the gathered nodes are numbered
        0, 1, ... in gather order. */
    method SetCustomDataToIDs()
      requires Valid()
      modifies this
      ensures Valid()
      ensures var g := Gathered(kinds);
        forall i :: 0 <= i < |g| ==> customData[g[i]] == Some(i)
      ensures kinds == old(kinds) && links == old(links)
      ensures forall h :: 0 <= h < |kinds| && kinds[h].Deleted? ==> customData[h] == old(customData)[h]
      ensures across == old(across) && acrossFrom == old(acrossFrom)
      ensures down == old(down) && downFrom == old(downFrom)
      ensures typesetting == old(typesetting) && top == old(top)
    {
      var nodes := Gathered(kinds);
      var i := 0;
      while i < |nodes|
        invariant 0 <= i <= |nodes|
        invariant Valid() && kinds == old(kinds) && links == old(links)
        invariant across == old(across) && acrossFrom == old(acrossFrom)
        invariant down == old(down) && downFrom == old(downFrom)
        invariant typesetting == old(typesetting) && top == old(top)
        invariant forall k :: 0 <= k < i ==> customData[nodes[k]] == Some(k)
        invariant forall h :: 0 <= h < |kinds| && h !in nodes[..i] ==> customData[h] == old(customData)[h]
      {
        customData := customData[nodes[i] := Some(i)];
        i := i + 1;
      }
    }

    /** MusicGraph::ClearCustomData: every gathered node loses its custom
        data. */
    method ClearCustomData()
      requires Valid()
      modifies this
      ensures Valid()
      ensures forall h :: 0 <= h < |kinds| && !kinds[h].Deleted? ==> customData[h].None?
      ensures kinds == old(kinds) && links == old(links)
      ensures forall h :: 0 <= h < |kinds| && kinds[h].Deleted? ==> customData[h] == old(customData)[h]
      ensures across == old(across) && acrossFrom == old(acrossFrom)
      ensures down == old(down) && downFrom == old(downFrom)
      ensures typesetting == old(typesetting) && top == old(top)
    {
      var nodes := Gathered(kinds);
      var i := 0;
      while i < |nodes|
        invariant 0 <= i <= |nodes|
        invariant Valid() && kinds == old(kinds) && links == old(links)
        invariant across == old(across) && acrossFrom == old(acrossFrom)
        invariant down == old(down) && downFrom == old(downFrom)
        invariant typesetting == old(typesetting) && top == old(top)
        invariant forall k :: 0 <= k < i ==> customData[nodes[k]].None?
        invariant forall h :: 0 <= h < |kinds| && h !in nodes[..i] ==> customData[h] == old(customData)[h]
      {
        customData := customData[nodes[i] := None];
        i := i + 1;
      }
    }

    /** The first n islands of a mesh of cols columns numbered row by row,
        as CreateIslands builds them: bare islands linked by the mesh
        tables. */
    ghost predicate Mesh(cols: nat, n: nat)
      reads this
    {
      && Valid() && cols >= 1
      && Nodes() == PlusIslands(NodeTables([], [], [], []), n)
      && MeshTables() == MeshOf(cols, n)
    }

    /** The mesh CreateIslands(rows, cols) builds: rows parts by cols
        instants, numbered part by part, the top at island 0. */
    ghost predicate IsGrid(rows: nat, cols: nat)
      reads this
    {
      Mesh(cols, Cell(cols, rows, 0)) && top == Some(0)
    }

    /** In the mesh, island (i, j) is linked across to (i, j + 1) and down
        to (i + 1, j) when those exist, and back from (i, j - 1) and
        (i - 1, j); there are no other mesh links. */
    lemma GridLinks(rows: nat, cols: nat, i: nat, j: nat)
      requires IsGrid(rows, cols) && i < rows && j < cols
      ensures Cell(cols, i, j) < |kinds| && kinds[Cell(cols, i, j)] == Island
      ensures across[Cell(cols, i, j)] == (if j + 1 < cols then Some(Cell(cols, i, j + 1)) else None)
      ensures acrossFrom[Cell(cols, i, j)] == (if j > 0 then Some(Cell(cols, i, j - 1)) else None)
      ensures down[Cell(cols, i, j)] == (if i + 1 < rows then Some(Cell(cols, i + 1, j)) else None)
      ensures downFrom[Cell(cols, i, j)] == (if i > 0 then Some(Cell(cols, i - 1, j)) else None)
    {
      MeshOfTables(cols, |kinds|);
      GridAcross(rows, cols, i, j);
      GridDown(rows, cols, i, j);
    }

    /** One island of CreateIslands: a new island, linked across from the
        previous island of its row (left) and down from the island above
        it (above) when those exist. */
    method AddMeshIsland(ghost cols: nat, left: Option<Handle>, above: Option<Handle>)
      returns (y: Handle)
      requires Mesh(cols, |kinds|)
      requires left == LeftOf(cols, |kinds|) && above == AboveOf(cols, |kinds|)
      modifies this
      ensures |kinds| == y + 1 && Mesh(cols, |kinds|)
      ensures y == |old(kinds)| && top == old(top)
    {
      PlusIslandsStep(NodeTables([], [], [], []), |kinds|);
      y := AddIsland(left, above);
    }

    /** The first row of CreateIslands: cols islands (at least one), each
        linked across from the one before. */
    method AddFirstRow(ghost C: nat, cols: int)
      requires C == (if cols >= 1 then cols else 1) && Mesh(C, 0)
      modifies this
      ensures Mesh(C, C) && top == old(top)
    {
      var x := AddMeshIsland(C, None, None);
      var i := 1;
      while i < cols
        invariant 1 <= i <= C && x + 1 == i == |kinds| && ColOf(C, x) == i - 1
        invariant Mesh(C, i) && top == old(top)
      {
        var y := AddMeshIsland(C, Some(x), None);
        x := y;
        i := i + 1;
      }
    }

    /** One pass of CreateIslands' outer loop: row i, hung below the head
        of row i - 1, each island after the first also linked down from
        the island above it. */
    method AddMeshRow(ghost C: nat, cols: int, previousHead: Handle) returns (head: Handle)
      requires C == (if cols >= 1 then cols else 1)
      requires Mesh(C, |kinds|) && previousHead + C == |kinds|
      requires ColOf(C, previousHead) == 0 && ColOf(C, |kinds|) == 0
      modifies this
      ensures Mesh(C, |kinds|) && |kinds| == |old(kinds)| + C && top == old(top)
      ensures head == |old(kinds)|
    {
      ghost var start := |kinds|;
      var x := AddMeshIsland(C, None, Some(previousHead));
      var previous := previousHead;
      var j := 1;
      while j < cols
        invariant 1 <= j <= C && |kinds| == start + j && x + 1 == |kinds| && previous + C == x
        invariant ColOf(C, x) == j - 1 && ColOf(C, previous) == j - 1
        invariant Mesh(C, |kinds|) && top == old(top)
      {
        x, previous := AddInnerIsland(C, x, previous);
        j := j + 1;
      }
      MeshLinksAt(C, |kinds|, previousHead);
      head := down[previousHead].value;
    }

    /** One pass of CreateIslands' inner loop: a new island after x, and
        previous moved across to the island above the new one. */
    method AddInnerIsland(ghost C: nat, x: Handle, previous: Handle) returns (y: Handle, above: Handle)
      requires Mesh(C, |kinds|) && x + 1 == |kinds| && previous + C == x
      requires ColOf(C, x) + 1 < C && ColOf(C, previous) == ColOf(C, x)
      modifies this
      ensures Mesh(C, |kinds|) && top == old(top)
      ensures y == x + 1 == |kinds| - 1 && above == previous + 1
      ensures ColOf(C, y) == ColOf(C, x) + 1 && ColOf(C, above) == ColOf(C, y)
    {
      InnerLinks(C, |kinds|, previous);
      above := across[previous].value;
      y := AddMeshIsland(C, Some(x), Some(above));
    }

    /** The outer loop of CreateIslands: rows 1 to rows - 1. */
    method AddRemainingRows(ghost R: nat, ghost C: nat, rows: int, cols: int)
      requires R == (if rows >= 1 then rows else 1) && C == (if cols >= 1 then cols else 1)
      requires Mesh(C, |kinds|) && |kinds| == C && top == Some(0)
      modifies this
      ensures Mesh(C, |kinds|) && |kinds| == Cell(C, R, 0) && top == Some(0)
    {
      var previousHead := top.value;
      var i := 1;
      while i < rows
        invariant 1 <= i <= R && |kinds| == Cell(C, i, 0)
        invariant previousHead + C == |kinds| && ColOf(C, previousHead) == 0
        invariant Mesh(C, |kinds|) && top == Some(0)
      {
        ColOfCell(C, i, 0);
        CellNextRow(C, i, 0);
        previousHead := AddMeshRow(C, cols, previousHead);
        i := i + 1;
      }
    }

    /** MusicGraph::CreateIslands: clears the graph, then builds a mesh of
        rows parts by cols instants (at least one of each: the first row
        and the first island of every row are made unconditionally). */
    method CreateIslands(rows: int, cols: int)
      modifies this
      ensures IsGrid(if rows >= 1 then rows else 1, if cols >= 1 then cols else 1)
    {
      Clear();
      ghost var R: nat := if rows >= 1 then rows else 1;
      ghost var C: nat := if cols >= 1 then cols else 1;

      // The first row.
      AddFirstRow(C, cols);
      top := Some(0);

      // The remaining rows, each hung below the previous row's head.
      AddRemainingRows(R, C, rows, cols);
    }

    /** The mesh link tables. */
    function MeshTables(): (t: MeshLinks)
      reads this
      requires Valid()
      ensures t.Sized(|kinds|)
    {
      MeshLinks(across, acrossFrom, down, downFrom)
    }

    /** The per-node tables other than the mesh links. */
    function Nodes(): NodeTables
      reads this
    {
      NodeTables(kinds, links, typesetting, customData)
    }

    /** MusicGraph::AppendColumn: beside each island of the instant whose
        top is previousTop, read down that instant, a new island linked
        across from it; the new islands are linked down one below the
        other, and the first of them is returned. */
    method AppendColumn(previousTop: Handle) returns (newTop: Handle)
      requires Valid() && previousTop < |kinds| && Ends(down, previousTop)
      modifies this
      ensures Valid() && newTop == |old(kinds)| && top == old(top)
      ensures var col := Chain(old(down), previousTop);
        && Nodes() == PlusIslands(old(Nodes()), |col|)
        && MeshTables() == ColumnForm(old(MeshTables()), col, |col|)
    {
      ghost var col := Chain(down, previousTop);
      ghost var t0, p0 := MeshTables(), Nodes();
      StartCopying(previousTop);
      var current, next := CopyIsland(t0, p0, previousTop, 0, previousTop, None);
      newTop := current;
      ghost var count := 1;
      while next.Some?
        invariant 1 <= count <= |col| && current == |t0.across| + count - 1
        invariant Copying(t0, p0, col, count) && top == old(top)
        invariant next.Some? <==> count < |col|
        invariant next.Some? ==> next.value == col[count]
        decreases |col| - count
      {
        current, next := CopyIsland(t0, p0, previousTop, count, next.value, Some(current));
        count := count + 1;
      }
    }

    /** Before AppendColumn has added anything, none of the instant below
        previousTop has been copied. */
    lemma StartCopying(previousTop: Handle)
      requires Valid() && previousTop < |kinds| && Ends(down, previousTop)
      ensures Copying(MeshTables(), Nodes(), Chain(down, previousTop), 0)
    {
      ChainShape(down, previousTop);
      ChainDistinct(down, previousTop);
      ColumnFormStart(MeshTables(), Chain(down, previousTop));
    }

    /** Part way through AppendColumn: the first count islands of the
        copied instant col have their new islands beside them. */
    ghost predicate Copying(t0: MeshLinks, p0: NodeTables, col: seq<Handle>, count: nat)
      reads this
    {
      && Valid() && t0.Sized(|t0.across|) && count <= |col|
      && (forall k :: 0 <= k < |col| ==> col[k] < |t0.across|)
      && (forall i, j :: 0 <= i < j < |col| ==> col[i] != col[j])
      && Nodes() == PlusIslands(p0, count)
      && MeshTables() == ColumnForm(t0, col, count)
    }

    /** One step of AppendColumn: the island beside the count-th island
        of the copied instant (previous) is added, and the island below
        previous, if any, is found with Find(InstantWiseLink). */
    method CopyIsland(ghost t0: MeshLinks, ghost p0: NodeTables, ghost previousTop: Handle,
                      ghost count: nat, previous: Handle, above: Option<Handle>)
      returns (y: Handle, next: Option<Handle>)
      requires Ends(t0.down, previousTop) && Copying(t0, p0, Chain(t0.down, previousTop), count)
      requires count < |Chain(t0.down, previousTop)| && previous == Chain(t0.down, previousTop)[count]
      requires above == AboveInColumn(|t0.across|, count)
      modifies this
      ensures var col := Chain(t0.down, previousTop);
        && Copying(t0, p0, col, count + 1)
        && y == |t0.across| + count && top == old(top)
        && (next.Some? <==> count + 1 < |col|)
        && (next.Some? ==> next.value == col[count + 1])
    {
      ghost var col := Chain(t0.down, previousTop);
      y := AppendBeside(col, t0, p0, count, previous, above);
      ChainNext(t0.down, previousTop, count);
      next := down[previous];
    }

    /** One island of AppendColumn: a new island beside col[count] (which
        is beside), linked across from it and down from the island above
        it (above) unless it is the first of the column. */
    method AppendBeside(ghost col: seq<Handle>, ghost t0: MeshLinks, ghost p0: NodeTables,
                        ghost count: nat, beside: Handle, above: Option<Handle>)
      returns (y: Handle)
      requires Copying(t0, p0, col, count) && count < |col| && beside == col[count]
      requires above == AboveInColumn(|t0.across|, count)
      modifies this
      ensures Copying(t0, p0, col, count + 1)
      ensures y == |old(kinds)| && top == old(top)
    {
      PlusIslandsStep(p0, count);
      ColumnStep(t0, col, count);
      y := AddIsland(Some(beside), above);
    }

    /** AddNode(Island) followed by AddLink(y, PartWiseLink) on beside and
        AddLink(y, InstantWiseLink) on above, where those are given. */
    method AddIsland(beside: Option<Handle>, above: Option<Handle>) returns (y: Handle)
      requires Valid()
      requires beside.Some? ==> beside.value < |kinds|
      requires above.Some? ==> above.value < |kinds|
      modifies this
      ensures Valid() && y == |old(kinds)| && top == old(top)
      ensures Nodes() == PlusIslands(old(Nodes()), 1)
      ensures MeshTables() == Linked(old(MeshTables()), beside, above)
    {
      y := AddNode(Island);
      if beside.Some? {
        AddAcross(beside.value, y);
      }
      if above.Some? {
        AddDown(above.value, y);
      }
    }

    /** MusicGraph::TraverseRows: part by part from the top, each part
        instant by instant; the result is the order in which the operation
        is performed on the islands. */
    method TraverseRows() returns (visited: seq<Handle>)
      requires Valid()
      requires top.Some? ==> Ends(down, top.value) && AllEnd(across, Chain(down, top.value))
      ensures top.Some? ==> visited == Sweep(across, Chain(down, top.value))
      ensures top.None? ==> visited == []
    {
      visited := [];
      if top.Some? {
        visited := Walk(down, across, top.value);
      }
    }

    /** MusicGraph::TraverseColumns: instant by instant from the top, each
        instant part by part. */
    method TraverseColumns() returns (visited: seq<Handle>)
      requires Valid()
      requires top.Some? ==> Ends(across, top.value) && AllEnd(down, Chain(across, top.value))
      ensures top.Some? ==> visited == Sweep(down, Chain(across, top.value))
      ensures top.None? ==> visited == []
    {
      visited := [];
      if top.Some? {
        visited := Walk(across, down, top.value);
      }
    }

    /** On the mesh CreateIslands builds, TraverseRows visits every island
        exactly once, part by part in numbering order, and TraverseColumns
        visits them instant by instant, each instant from the top down. */
    lemma GridTraversals(rows: nat, cols: nat)
      requires IsGrid(rows, cols) && rows >= 1 && cols >= 1
      ensures Ends(down, 0) && AllEnd(across, Chain(down, 0))
      ensures Sweep(across, Chain(down, 0)) == seq(|kinds|, (h: nat) => h)
      ensures Ends(across, 0) && AllEnd(down, Chain(across, 0))
      ensures Sweep(down, Chain(across, 0)) == ColumnMajor(cols, rows, cols)
    {
      var n := Cell(cols, rows, 0);
      MeshOfTables(cols, n);
      forall k | 0 <= k < rows
        ensures Ends(across, Cell(cols, k, 0))
        ensures Chain(across, Cell(cols, k, 0)) == seq(cols, (x: nat) => Cell(cols, k, 0) + x)
      {
        RowChain(rows, cols, k);
      }
      forall k | 0 <= k < cols
        ensures Ends(down, k) && Chain(down, k) == seq(rows, (x: nat) => Cell(cols, x, k))
      {
        ColumnChain(rows, cols, k);
      }
      assert Chain(down, 0) == seq(rows, (k: nat) => Cell(cols, k, 0));
      SweepOfRows(across, cols, rows);
      assert Chain(across, 0) == seq(cols, (x: nat) => x);
      SweepOfColumns(down, rows, cols, cols);
    }

    /** The unique ID of node h as the writer prints it. */
    function NodeID(h: Handle): string
      reads this
      requires Valid() && h < |kinds|
    {
      UniqueID(kinds[h], typesetting[h], customData[h])
    }
  }
}
