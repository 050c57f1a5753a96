/** XML::Write: the music graph as the text of a score element. The
    geometry is parsed first so that islands are named by part and
    instant, the other nodes are numbered through their custom data, and
    the islands of the geometry's matrix are written part by part, each
    part's islands in instant order, with their tokens inside them. */
module XMLWriter {
  import opened Wrappers
  import opened Graph
  import opened GraphXML
  import Instruments
  import Chains
  import Numbering
  import Layout

  // ---------------------------------------------------------------------
  // The elements Write emits
  // ---------------------------------------------------------------------

  /** The kind of node h, Deleted for a handle outside the graph. */
  function Kind(n: NodeTables, h: Handle): NodeKind {
    if h < |n.kinds| then n.kinds[h] else Deleted
  }

  /** The outgoing links of node h. */
  function LinksOf(n: NodeTables, h: Handle): seq<Link> {
    if h < |n.links| then n.links[h] else []
  }

  /** MusicNode::UniqueID of node h. */
  function NodeName(n: NodeTables, h: Handle): string {
    if h < |n.kinds| && h < |n.typesetting| && h < |n.customData| then
      UniqueID(n.kinds[h], n.typesetting[h], n.customData[h])
    else ""
  }

  /** Find: the first node a link of the kind leads to. */
  function FirstTarget(n: NodeTables, h: Handle, kind: LinkKind): Option<Handle> {
    var ts := Targets(LinksOf(n, h), kind);
    if ts == [] then None else Some(ts[0])
  }

  /** Find<Island> over a mesh link: the island it leads to. */
  function MeshTarget(n: NodeTables, succ: seq<Option<Handle>>, h: Handle): Option<Handle> {
    if h < |succ| && succ[h].Some? && Kind(n, succ[h].value).Island? then succ[h] else None
  }

  /** The attributes of an island: its id, then `across` and `down` when
      its part-wise and instant-wise links lead to islands. */
  function IslandAttrs(n: NodeTables, m: MeshLinks, h: Handle): seq<(string, string)> {
    [("id", NodeName(n, h))]
    + (match MeshTarget(n, m.across, h) case Some(a) => [("across", NodeName(n, a))] case None => [])
    + (match MeshTarget(n, m.down, h) case Some(d) => [("down", NodeName(n, d))] case None => [])
  }

  /** The child of a part element: its stringed instrument, when the
      part's first token link leads to one. */
  function PartChildren(n: NodeTables, t: Handle): seq<XNode> {
    match FirstTarget(n, t, TokenLink)
    case Some(s) =>
      if Kind(n, s).StringedInstrument? then [InstrumentElement(NodeName(n, s), Kind(n, s).instrument)] else []
    case None => []
  }

  /** `next` when the chord's continuity link leads to a chord, else
      `next-in-voice` when its voice link does. */
  function ChordNext(n: NodeTables, t: Handle): seq<(string, string)> {
    var c, v := FirstTarget(n, t, ContinuityLink), FirstTarget(n, t, VoiceLink);
    if c.Some? && Kind(n, c.value).ChordToken? then [("next", NodeName(n, c.value))]
    else if v.Some? && Kind(n, v.value).ChordToken? then [("next-in-voice", NodeName(n, v.value))]
    else []
  }

  /** The note elements of the notes among the given nodes. */
  function NoteElements(n: NodeTables, hs: seq<Handle>): (r: seq<XNode>)
    ensures |r| <= |hs|
  {
    if hs == [] then []
    else
      var h := hs[|hs| - 1];
      NoteElements(n, hs[..|hs| - 1]) + if Kind(n, h).NoteNode? then [NoteElement(n, h)] else []
  }

  /** The element of a note: its id, position and modifier. */
  function NoteElement(n: NodeTables, h: Handle): XNode
    requires Kind(n, h).NoteNode?
  {
    Element("note", [("id", NodeName(n, h)), ("position", Kind(n, h).position), ("modifier", Kind(n, h).modifier)], [])
  }

  /** The element one token is written as; None for a node that is not a
      token or is a token Write has no element for. */
  function TokenElement(n: NodeTables, t: Handle): Option<XNode> {
    var id := ("id", NodeName(n, t));
    match Kind(n, t)
    case PartToken => Some(Element("part", [id], PartChildren(n, t)))
    case BarlineToken(value) => Some(Element("barline", [id, ("value", value)], []))
    case ChordToken(duration, beat, instant) =>
      Some(Element("chord", [id] + ChordNext(n, t) + [("duration", duration), ("beat", beat), ("instant", instant)],
                   NoteElements(n, Targets(LinksOf(n, t), NoteLink))))
    case ClefToken(value) => Some(Element("clef", [id, ("value", value)], []))
    case KeySignatureToken(key, keySignature) =>
      Some(Element("key", [id, if key != "" then ("key", key) else ("key-signature", keySignature)], []))
    case MeterToken(value) => Some(Element("meter", [id, ("value", value)], []))
    case _ => None
  }

  /** The elements of the given tokens, in link order. */
  function TokenElements(n: NodeTables, ts: seq<Handle>): (r: seq<XNode>)
    ensures |r| <= |ts|
  {
    if ts == [] then []
    else
      TokenElements(n, ts[..|ts| - 1])
      + match TokenElement(n, ts[|ts| - 1]) case Some(e) => [e] case None => []
  }

  /** The element an island is written as. */
  function IslandElement(n: NodeTables, m: MeshLinks, h: Handle): XNode {
    Element("island", IslandAttrs(n, m, h), TokenElements(n, Targets(LinksOf(n, h), TokenLink)))
  }

  // ---------------------------------------------------------------------
  // The text
  // ---------------------------------------------------------------------

  /** Two spaces per level. */
  function Indent(depth: nat): (s: string)
    ensures |s| == 2 * depth
  {
    if depth == 0 then "" else Indent(depth - 1) + "  "
  }

  /** ` key='value'` for each attribute, in order. */
  function AttrsText(attrs: seq<(string, string)>): string {
    if attrs == [] then ""
    else AttrsText(attrs[..|attrs| - 1]) + " " + attrs[|attrs| - 1].0 + "='" + attrs[|attrs| - 1].1 + "'"
  }

  /** Elements Write always closes with an end tag. */
  predicate Paired(name: string) {
    name == "island" || name == "chord" || name == "stringInstr"
  }

  /** An element on a line of its own at the given depth: a childless
      element other than an island, chord or instrument closes itself;
      any other element has its children on the lines below it and an
      end tag on a line at its own depth. */
  function Render(e: XNode, depth: nat): string
    decreases e
  {
    match e
    case Text(s) => s
    case Element(name, attrs, children) =>
      "\n" + Indent(depth) + "<" + name + AttrsText(attrs)
      + if children == [] && !Paired(name) then "/>"
        else ">" + RenderAll(children, depth + 1) + "\n" + Indent(depth) + "</" + name + ">"
  }

  function RenderAll(cs: seq<XNode>, depth: nat): string
    decreases cs
  {
    if cs == [] then "" else Render(cs[0], depth) + RenderAll(cs[1..], depth)
  }

  // ---------------------------------------------------------------------
  // The order of the islands
  // ---------------------------------------------------------------------

  /** The islands of one part's row of the matrix, in instant order,
      empty cells skipped. */
  function RowIslands(row: seq<Option<Handle>>): seq<Handle> {
    if row == [] then []
    else RowIslands(row[..|row| - 1]) + (if row[|row| - 1].Some? then [row[|row| - 1].value] else [])
  }

  /** The islands of the matrix, part by part. */
  function MatrixIslands(cells: seq<seq<Option<Handle>>>): seq<Handle> {
    if cells == [] then [] else MatrixIslands(cells[..|cells| - 1]) + RowIslands(cells[|cells| - 1])
  }

  /** The text of one island, indented one level below the score. */
  function IslandText(n: NodeTables, m: MeshLinks): Handle -> string {
    (h: Handle) => Render(IslandElement(n, m, h), 1)
  }

  /** The text of one part's row: its islands in instant order. */
  function RowText(text: Handle -> string, row: seq<Option<Handle>>): string {
    if row == [] then ""
    else RowText(text, row[..|row| - 1]) + match row[|row| - 1] case Some(h) => text(h) case None => ""
  }

  /** The text of the rows, part by part. */
  function MatrixText(text: Handle -> string, cells: seq<seq<Option<Handle>>>): string {
    if cells == [] then "" else MatrixText(text, cells[..|cells| - 1]) + RowText(text, cells[|cells| - 1])
  }

  /** The text of islands in turn. */
  function IslandsText(text: Handle -> string, hs: seq<Handle>): string {
    if hs == [] then "" else IslandsText(text, hs[..|hs| - 1]) + text(hs[|hs| - 1])
  }

  /** The whole output. */
  function ScoreText(n: NodeTables, m: MeshLinks, cells: seq<seq<Option<Handle>>>): string {
    "<score>" + MatrixText(IslandText(n, m), cells) + "\n</score>"
  }

  // ---------------------------------------------------------------------
  // Writing
  // ---------------------------------------------------------------------

  /** The matrix of a geometry. */
  ghost function Matrix(geo: Layout.Geometry): seq<seq<Option<Handle>>>
    reads geo, geo.islandMatrix
    requires geo.Indexed()
  {
    Layout.Accessors(geo.filledFrom, geo.islands, geo.partCount, geo.instantCount)
  }

  /** Write's loops over the matrix, part by part and within a part
      instant by instant, writing every island found. */
  method WriteIslands(g: MusicGraph, geo: Layout.Geometry) returns (out: string)
    requires g.Valid() && geo.Indexed()
    ensures out == ScoreText(g.Nodes(), g.MeshTables(), Matrix(geo))
  {
    ghost var cells := Matrix(geo);
    var text := IslandText(g.Nodes(), g.MeshTables());
    var body := "";
    for i := 0 to geo.partCount
      invariant body == MatrixText(text, cells[..i])
    {
      var row := "";
      for j := 0 to geo.instantCount
        invariant row == RowText(text, cells[i][..j])
      {
        var isle := geo.LookupIsland(i, j);
        assert cells[i][..j + 1][..j] == cells[i][..j];
        if isle.Some? {
          row := row + text(isle.value);
        }
      }
      assert cells[i][..geo.instantCount] == cells[i];
      assert cells[..i + 1][..i] == cells[..i];
      body := body + row;
    }
    assert cells[..geo.partCount] == cells;
    out := "<score>" + body + "\n</score>";
  }

  /** Write's first step: a fresh geometry parses the graph, with the
      outcomes of Parse. Only the graph's typesetting changes, and the
      geometry holds what Parse states of it. */
  method ParseGeometry(g: MusicGraph, fuel: nat)
    returns (geo: Layout.Geometry, parts: Numbering.PartsOutcome, outcome: Numbering.Outcome,
             ghost tsParts: seq<Option<TypesettingInfo>>, ghost edge: seq<Handle>, ghost groups: seq<seq<Handle>>)
    requires g.Valid() && Numbering.Columns(g.kinds, g.across, g.acrossFrom, g.down)
    requires Numbering.StrandsEnd(g.kinds, g.across, g.acrossFrom, g.down)
    requires Numbering.Typeset(g.kinds, g.typesetting)
    requires g.top.Some? && g.top.value < |g.kinds| && g.kinds[g.top.value].Island?
    modifies g`typesetting
    ensures fresh(geo) && g.Valid()
    ensures geo.Parsed(g.kinds, g.across, g.acrossFrom, g.down, g.top.value, old(g.typesetting), tsParts,
                       g.typesetting, parts, outcome, edge, groups)
  {
    geo := new Layout.Geometry();
    parts, outcome, tsParts, edge, groups := geo.Parse(g, fuel);
  }

  /** The place of island h in ts is written: some island the matrix
      holds, and so Write writes, has h's part and instant. */
  ghost predicate PlaceWritten(geo: Layout.Geometry, ts: seq<Option<TypesettingInfo>>, h: Handle)
    reads geo, geo.islandMatrix
    requires geo.Indexed()
  {
    && h < |ts| && ts[h].Some?
    && exists w :: w in MatrixIslands(Matrix(geo)) && Layout.At(ts, w, ts[h].value.partID, ts[h].value.instantID)
  }

  /** No listed island but h has h's part and instant in ts. */
  ghost predicate Alone(geo: Layout.Geometry, ts: seq<Option<TypesettingInfo>>, h: Handle)
    reads geo
  {
    h < |ts| && ts[h].Some? &&
    forall x :: x in geo.islands && Layout.At(ts, x, ts[h].value.partID, ts[h].value.instantID) ==> x == h
  }

  /** A listed island with typesetting inside the matrix has its place
      written, and is itself written when no other listed island shares
      its part and instant. */
  lemma IslandWritten(geo: Layout.Geometry, h: Handle)
    requires geo.Indexed() && h in geo.islands && h < |geo.filledFrom| && geo.filledFrom[h].Some?
    requires 0 <= geo.filledFrom[h].value.partID < geo.partCount
    requires 0 <= geo.filledFrom[h].value.instantID < geo.instantCount
    ensures PlaceWritten(geo, geo.filledFrom, h)
    ensures Alone(geo, geo.filledFrom, h) ==> h in MatrixIslands(Matrix(geo))
  {
    var p, k := geo.filledFrom[h].value.partID, geo.filledFrom[h].value.instantID;
    var i :| 0 <= i < |geo.islands| && geo.islands[i] == h;
    assert Layout.At(geo.filledFrom, geo.islands[i], p, k);
    var r := geo.LookupIsland(p, k);
    var w := r.value;
    assert Matrix(geo)[p][k] == Some(w);
    MatrixIslandsMembers(Matrix(geo), w);
  }

  /** After a finished parse that left no island unnumbered, every island
      the sweep numbered has its place written, and is itself written
      when no other island shares its part and instant. */
  lemma NumberedWritten(geo: Layout.Geometry, kinds: seq<NodeKind>, across: Chains.Successors,
                        acrossFrom: Chains.Successors, down: Chains.Successors, top: Handle,
                        ts0: seq<Option<TypesettingInfo>>,
                        tsParts: seq<Option<TypesettingInfo>>, ts: seq<Option<TypesettingInfo>>,
                        parts: Numbering.PartsOutcome, groups: seq<seq<Handle>>)
    requires Numbering.Columns(kinds, across, acrossFrom, down) && Numbering.StrandsEnd(kinds, across, acrossFrom, down)
    requires Numbering.Typeset(kinds, ts0) && top < |kinds| && kinds[top].Island?
    requires geo.Parsed(kinds, across, acrossFrom, down, top, ts0, tsParts, ts, parts, Numbering.Done, [], groups)
    requires !parts.Unnumbered?
    ensures geo.Indexed() && geo.filledFrom == ts
    ensures forall h :: Numbering.Given(groups, h) ==>
      && PlaceWritten(geo, ts, h)
      && (Alone(geo, ts, h) ==> h in MatrixIslands(Matrix(geo)))
  {
    forall h | Numbering.Given(groups, h)
      ensures PlaceWritten(geo, ts, h)
      ensures Alone(geo, ts, h) ==> h in MatrixIslands(Matrix(geo))
    {
      IslandWritten(geo, h);
    }
  }

  /** Write's second step over a parsed geometry: the nodes are
      numbered, the islands of the matrix are written and the numbering
      is cleared again. */
  method WriteNumbered(g: MusicGraph, geo: Layout.Geometry) returns (out: string, ghost named: NodeTables)
    requires g.Valid() && geo.Indexed() && geo.filledFrom == g.typesetting
    modifies g
    ensures g.Valid() && g.kinds == old(g.kinds) && g.links == old(g.links) && g.typesetting == old(g.typesetting)
    ensures g.across == old(g.across) && g.acrossFrom == old(g.acrossFrom) && g.down == old(g.down)
    ensures g.MeshTables() == old(g.MeshTables()) && g.top == old(g.top)
    ensures out == ScoreText(named, g.MeshTables(), Matrix(geo))
    ensures named.kinds == g.kinds && named.links == g.links && named.typesetting == g.typesetting
    ensures |named.customData| == |g.kinds|
    ensures forall i :: 0 <= i < |Gathered(g.kinds)| ==> named.customData[Gathered(g.kinds)[i]] == Some(i)
    ensures forall h :: 0 <= h < |g.kinds| && !g.kinds[h].Deleted? ==> g.customData[h].None?
  {
    g.SetCustomDataToIDs();
    named := g.Nodes();
    out := WriteIslands(g, geo);
    g.ClearCustomData();
  }

  /** Write after a finished parse: the geometry still holds what Parse
      stated of it, and after a parse that left no island unnumbered
      every island the sweep numbered has its place written. */
  method WriteParsed(g: MusicGraph, geo: Layout.Geometry, ghost ts0: seq<Option<TypesettingInfo>>,
                     ghost parts: Numbering.PartsOutcome, ghost tsParts: seq<Option<TypesettingInfo>>,
                     ghost groups: seq<seq<Handle>>)
    returns (out: string, ghost named: NodeTables)
    requires g.Valid() && Numbering.Columns(g.kinds, g.across, g.acrossFrom, g.down)
    requires Numbering.StrandsEnd(g.kinds, g.across, g.acrossFrom, g.down)
    requires Numbering.Typeset(g.kinds, ts0)
    requires g.top.Some? && g.top.value < |g.kinds| && g.kinds[g.top.value].Island?
    requires geo.Parsed(g.kinds, g.across, g.acrossFrom, g.down, g.top.value, ts0, tsParts, g.typesetting,
                        parts, Numbering.Done, [], groups)
    modifies g
    ensures g.Valid() && g.kinds == old(g.kinds) && g.links == old(g.links) && g.typesetting == old(g.typesetting)
    ensures g.MeshTables() == old(g.MeshTables()) && g.top == old(g.top)
    ensures geo.Parsed(g.kinds, g.across, g.acrossFrom, g.down, g.top.value, ts0, tsParts, g.typesetting,
                       parts, Numbering.Done, [], groups)
    ensures out == ScoreText(named, g.MeshTables(), Matrix(geo))
    ensures !parts.Unnumbered? ==> geo.Indexed() && forall h :: Numbering.Given(groups, h) ==>
      && PlaceWritten(geo, g.typesetting, h)
      && (Alone(geo, g.typesetting, h) ==> h in MatrixIslands(Matrix(geo)))
    ensures named.kinds == g.kinds && named.links == g.links && named.typesetting == g.typesetting
    ensures |named.customData| == |g.kinds|
    ensures forall i :: 0 <= i < |Gathered(g.kinds)| ==> named.customData[Gathered(g.kinds)[i]] == Some(i)
    ensures forall h :: 0 <= h < |g.kinds| && !g.kinds[h].Deleted? ==> g.customData[h].None?
  {
    ghost var kinds, across, acrossFrom, down, top, ts := g.kinds, g.across, g.acrossFrom, g.down, g.top.value, g.typesetting;
    if !parts.Unnumbered? {
      NumberedWritten(geo, kinds, across, acrossFrom, down, top, ts0, tsParts, ts, parts, groups);
    }
    out, named := WriteNumbered(g, geo);
    assert unchanged(geo, geo.islandMatrix);
  }

  /** XML::Write: the geometry is parsed, the nodes are numbered, the
      islands of the matrix are written and the numbering is cleared
      again. The geometry holds what Parse states of it, so that after a
      finished parse that left no island unnumbered, every island the
      sweep numbered has its place written, and is itself written unless
      another island shares its part and instant (the matrix keeps one
      island per cell). When the geometry's instant numbering does not
      finish, the model writes nothing. */
  method Write(g: MusicGraph, fuel: nat)
    returns (out: string, ghost done: bool, ghost named: NodeTables, ghost geo: Layout.Geometry,
             ghost parts: Numbering.PartsOutcome, ghost tsParts: seq<Option<TypesettingInfo>>,
             ghost groups: seq<seq<Handle>>)
    requires g.Valid() && Numbering.Columns(g.kinds, g.across, g.acrossFrom, g.down)
    requires Numbering.StrandsEnd(g.kinds, g.across, g.acrossFrom, g.down)
    requires Numbering.Typeset(g.kinds, g.typesetting)
    requires g.top.Some? && g.top.value < |g.kinds| && g.kinds[g.top.value].Island?
    modifies g
    ensures g.Valid() && g.kinds == old(g.kinds) && g.links == old(g.links)
    ensures g.MeshTables() == old(g.MeshTables()) && g.top == old(g.top)
    ensures !done ==> out == ""
    ensures done ==> fresh(geo) && geo.Parsed(g.kinds, g.across, g.acrossFrom, g.down, g.top.value,
                                              old(g.typesetting), tsParts, g.typesetting, parts,
                                              Numbering.Done, [], groups)
    ensures done ==> out == ScoreText(named, g.MeshTables(), Matrix(geo))
    ensures done && !parts.Unnumbered? ==> geo.Indexed() && forall h :: Numbering.Given(groups, h) ==>
      && PlaceWritten(geo, g.typesetting, h)
      && (Alone(geo, g.typesetting, h) ==> h in MatrixIslands(Matrix(geo)))
    ensures named.kinds == g.kinds && named.links == g.links && named.typesetting == g.typesetting
    ensures done ==> |named.customData| == |g.kinds|
    ensures done ==> forall i :: 0 <= i < |Gathered(g.kinds)| ==> named.customData[Gathered(g.kinds)[i]] == Some(i)
    ensures done ==> forall h :: 0 <= h < |g.kinds| && !g.kinds[h].Deleted? ==> g.customData[h].None?
  {
    var geometry, ps, outcome, tsp, edge, grp := ParseGeometry(g, fuel);
    geo, done, parts, tsParts, groups := geometry, outcome == Numbering.Done, ps, tsp, grp;
    named := g.Nodes();
    if outcome != Numbering.Done {
      return "", done, named, geo, parts, tsParts, groups;
    }
    out, named := WriteParsed(g, geometry, old(g.typesetting), ps, tsp, grp);
  }

  // ---------------------------------------------------------------------
  // What Write's output holds
  // ---------------------------------------------------------------------

  lemma Assoc<T>(a: seq<T>, b: seq<T>, c: seq<T>)
    ensures (a + b) + c == a + (b + c)
  {
  }

  lemma FrontOfAppend<T>(a: seq<T>, b: seq<T>)
    requires b != []
    ensures (a + b)[..|a + b| - 1] == a + b[..|b| - 1] && (a + b)[|a + b| - 1] == b[|b| - 1]
  {
  }

  lemma AppendEmpty<T>(a: seq<T>)
    ensures a + [] == a
  {
  }

  lemma FrontOfSnoc<T>(a: seq<T>, x: T)
    ensures (a + [x])[..|a|] == a && (a + [x])[|a|] == x
  {
  }

  lemma {:induction false} IslandsTextAppend(text: Handle -> string, a: seq<Handle>, b: seq<Handle>)
    ensures IslandsText(text, a + b) == IslandsText(text, a) + IslandsText(text, b)
  {
    if b == [] {
      assert a + b == a;
    } else {
      var front := b[..|b| - 1];
      FrontOfAppend(a, b);
      IslandsTextAppend(text, a, front);
      Assoc(IslandsText(text, a), IslandsText(text, front), text(b[|b| - 1]));
    }
  }

  lemma {:induction false} RowTextIslands(text: Handle -> string, row: seq<Option<Handle>>)
    ensures RowText(text, row) == IslandsText(text, RowIslands(row))
  {
    if row != [] {
      var front, last := row[..|row| - 1], row[|row| - 1];
      RowTextIslands(text, front);
      var hs := RowIslands(front);
      if last.Some? {
        var t := text(last.value);
        assert RowText(text, row) == RowText(text, front) + t;
        assert RowIslands(row) == hs + [last.value];
        FrontOfSnoc(hs, last.value);
        assert IslandsText(text, hs + [last.value]) == IslandsText(text, hs) + t;
      } else {
        AppendEmpty(RowText(text, front));
        AppendEmpty(hs);
      }
    }
  }

  /** The text of the matrix is the text of its islands taken part by
      part, each part in instant order. */
  lemma {:induction false} MatrixTextIslands(text: Handle -> string, cells: seq<seq<Option<Handle>>>)
    ensures MatrixText(text, cells) == IslandsText(text, MatrixIslands(cells))
  {
    if cells != [] {
      var front := cells[..|cells| - 1];
      MatrixTextIslands(text, front);
      RowTextIslands(text, cells[|cells| - 1]);
      IslandsTextAppend(text, MatrixIslands(front), RowIslands(cells[|cells| - 1]));
    }
  }

  /** Write's output is a score element holding one island element per
      island of the matrix, in the order MatrixIslands gives. */
  lemma ScoreTextIslands(n: NodeTables, m: MeshLinks, cells: seq<seq<Option<Handle>>>)
    ensures ScoreText(n, m, cells) == "<score>" + IslandsText(IslandText(n, m), MatrixIslands(cells)) + "\n</score>"
  {
    MatrixTextIslands(IslandText(n, m), cells);
  }

  /** A row lists exactly the islands of its filled cells. */
  lemma {:induction false} RowIslandsMembers(row: seq<Option<Handle>>, h: Handle)
    ensures h in RowIslands(row) <==> exists k :: 0 <= k < |row| && row[k] == Some(h)
  {
    if row != [] {
      var front := row[..|row| - 1];
      RowIslandsMembers(front, h);
      if exists k :: 0 <= k < |row| && row[k] == Some(h) {
        var k :| 0 <= k < |row| && row[k] == Some(h);
        if k < |front| {
          assert front[k] == Some(h);
        }
      }
    }
  }

  /** The matrix lists exactly the islands of its filled cells: every
      island found at some part and instant is written, and nothing
      else. */
  lemma {:induction false} MatrixIslandsMembers(cells: seq<seq<Option<Handle>>>, h: Handle)
    ensures h in MatrixIslands(cells) <==>
      exists p, k :: 0 <= p < |cells| && 0 <= k < |cells[p]| && cells[p][k] == Some(h)
  {
    if cells != [] {
      var front, last := cells[..|cells| - 1], cells[|cells| - 1];
      MatrixIslandsMembers(front, h);
      RowIslandsMembers(last, h);
      if exists p, k :: 0 <= p < |cells| && 0 <= k < |cells[p]| && cells[p][k] == Some(h) {
        var p, k :| 0 <= p < |cells| && 0 <= k < |cells[p]| && cells[p][k] == Some(h);
        if p < |front| {
          assert front[p][k] == Some(h);
        }
      }
      if exists k :: 0 <= k < |last| && last[k] == Some(h) {
        var k :| 0 <= k < |last| && last[k] == Some(h);
        assert cells[|cells| - 1][k] == Some(h);
      }
    }
  }

  /** Part-major order: the islands of the first parts come before those
      of the later parts. */
  lemma {:induction false} MatrixIslandsAppend(a: seq<seq<Option<Handle>>>, b: seq<seq<Option<Handle>>>)
    ensures MatrixIslands(a + b) == MatrixIslands(a) + MatrixIslands(b)
  {
    if b == [] {
      assert a + b == a;
    } else {
      var front := b[..|b| - 1];
      FrontOfAppend(a, b);
      MatrixIslandsAppend(a, front);
      Assoc(MatrixIslands(a), MatrixIslands(front), RowIslands(b[|b| - 1]));
    }
  }

  /** Within a part, instant order: the islands of the earlier instants
      come first. */
  lemma {:induction false} RowIslandsAppend(a: seq<Option<Handle>>, b: seq<Option<Handle>>)
    ensures RowIslands(a + b) == RowIslands(a) + RowIslands(b)
  {
    if b == [] {
      assert a + b == a;
    } else {
      var front := b[..|b| - 1];
      FrontOfAppend(a, b);
      RowIslandsAppend(a, front);
      Assoc(RowIslands(a), RowIslands(front), if b[|b| - 1].Some? then [b[|b| - 1].value] else []);
    }
  }

  // ---------------------------------------------------------------------
  // Reading back what Write emits
  // ---------------------------------------------------------------------

  /** Every node has an entry in each per-node table, as in a valid
      graph. */
  predicate Sized(n: NodeTables) {
    |n.links| == |n.kinds| && |n.typesetting| == |n.kinds| && |n.customData| == |n.kinds|
  }

  /** A node of the graph always has a nonempty id. */
  lemma NodeNameNonEmpty(n: NodeTables, h: Handle)
    requires Sized(n) && h < |n.kinds|
    ensures NodeName(n, h) != ""
  {
    if n.kinds[h].Island? && n.typesetting[h].Some? {
      assert NodeName(n, h)[0] == 'i';
    } else {
      assert |TypeName(n.kinds[h]) + ":"| > 0;
    }
  }

  /** The id of the node an optional handle names, "" for none. */
  function NameOf(n: NodeTables, o: Option<Handle>): string {
    if o.Some? then NodeName(n, o.value) else ""
  }

  /** Attributes before the first one with the name do not matter. */
  lemma {:induction false} AttrsAbsent(a: seq<(string, string)>, b: seq<(string, string)>, key: string)
    requires forall i :: 0 <= i < |a| ==> a[i].0 != key
    ensures AttrIn(a + b, key) == AttrIn(b, key)
  {
    if a != [] {
      assert (a + b)[0] == a[0] && (a + b)[1..] == a[1..] + b;
      forall i | 0 <= i < |a[1..]|
        ensures a[1..][i].0 != key
      {
        assert a[1..][i] == a[i + 1];
      }
      AttrsAbsent(a[1..], b, key);
    } else {
      assert a + b == b;
    }
  }

  /** A written island is read as an island filed under its id, and its
      `across` and `down` attributes name the islands its mesh links lead
      to, or are absent. */
  lemma IslandReadBack(n: NodeTables, m: MeshLinks, h: Handle)
    requires Sized(n) && h < |n.kinds|
    ensures IsIslandElement(IslandElement(n, m, h))
    ensures Attr(IslandElement(n, m, h), "id") == NodeName(n, h)
    ensures Attr(IslandElement(n, m, h), "across") == NameOf(n, MeshTarget(n, m.across, h))
    ensures Attr(IslandElement(n, m, h), "down") == NameOf(n, MeshTarget(n, m.down, h))
  {
    NodeNameNonEmpty(n, h);
    var id := [("id", NodeName(n, h))];
    var a := match MeshTarget(n, m.across, h) case Some(x) => [("across", NodeName(n, x))] case None => [];
    var d := match MeshTarget(n, m.down, h) case Some(x) => [("down", NodeName(n, x))] case None => [];
    assert IslandElement(n, m, h).attrs == id + a + d;
    AttrsAbsent(id, a + d, "across");
    AttrsAbsent(id + a, d, "down");
    if a == [] {
      assert id + a + d == id + d;
      AttrsAbsent(id, d, "across");
      assert AttrIn(d, "across") == "" by {
        if d != [] {
          AttrSkip(d, "across");
        }
      }
    } else {
      assert id + a + d == id + (a + d);
      assert (a + d)[0] == a[0];
    }
    if d != [] {
      assert "down"[0] != "across"[0];
    }
  }

  /** The note element of a note reads back as that note, filed under
      its id. */
  lemma NoteReadBack(n: NodeTables, h: Handle)
    requires Sized(n) && Kind(n, h).NoteNode?
    ensures NoteElement(n, h).Element? && NoteElement(n, h).name == "note"
    ensures Attr(NoteElement(n, h), "id") == NodeName(n, h) != ""
    ensures NoteKind(NoteElement(n, h)) == Kind(n, h)
  {
    NodeNameNonEmpty(n, h);
    var a := NoteElement(n, h).attrs;
    AttrSkip(a, "position");
    AttrSkip(a, "modifier");
    AttrSkip(a[1..], "modifier");
  }

  /** The token a written key signature reads back as: a key wins over a
      key signature, so only one of the two survives. */
  function ReadBack(k: NodeKind): NodeKind {
    if k.KeySignatureToken? && k.key != "" then KeySignatureToken(k.key, "") else k
  }

  /** The rhythmic attributes of a written chord read back as the
      chord's, whichever next link it writes. */
  lemma ChordReadBack(n: NodeTables, t: Handle)
    requires Sized(n) && Kind(n, t).ChordToken?
    ensures ChordKind(TokenElement(n, t).value) == Kind(n, t)
  {
    var k := Kind(n, t);
    var head := [("id", NodeName(n, t))] + ChordNext(n, t);
    var rest := [("duration", k.duration), ("beat", k.beat), ("instant", k.instantDuration)];
    assert TokenElement(n, t).value.attrs == head + rest;
    assert "beat"[0] != "next"[0];
    AttrsAbsent(head, rest, "duration");
    AttrsAbsent(head, rest, "beat");
    AttrsAbsent(head, rest, "instant");
    AttrSkip(rest, "beat");
    AttrSkip(rest, "instant");
    AttrSkip(rest[1..], "instant");
  }

  /** A written token is read back by ReadIsland as the same token, filed
      under its id, except that a key signature with both a key and a key
      signature keeps only the key. */
  lemma TokenReadBack(n: NodeTables, t: Handle)
    requires Sized(n) && TokenElement(n, t).Some?
    ensures !Skipped(TokenElement(n, t).value)
    ensures Attr(TokenElement(n, t).value, "id") == NodeName(n, t) != ""
    ensures TokenKind(TokenElement(n, t).value) == Some(ReadBack(Kind(n, t)))
    ensures TokenKind(TokenElement(n, t).value) == Some(Kind(n, t)) <==>
      !(Kind(n, t).KeySignatureToken? && Kind(n, t).key != "" && Kind(n, t).keySignature != "")
  {
    NodeNameNonEmpty(n, t);
    var e := TokenElement(n, t).value;
    assert e.attrs[0] == ("id", NodeName(n, t));
    match Kind(n, t)
    case ChordToken(_, _, _) =>
      ChordReadBack(n, t);
    case KeySignatureToken(key, _) =>
      if key == "" {
        AttrSkip(e.attrs, "key");
        AttrSkip(e.attrs[1..], "key");
        AttrSkip(e.attrs, "key-signature");
      } else {
        AttrSkip(e.attrs, "key");
      }
    case PartToken =>
    case BarlineToken(_) =>
      AttrSkip(e.attrs, "value");
    case ClefToken(_) =>
      AttrSkip(e.attrs, "value");
    case MeterToken(_) =>
      AttrSkip(e.attrs, "value");
  }
}
