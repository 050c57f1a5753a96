/** Instant properties: the concepts (system break, optional break,
    repeating instant, absorbed instant) an instant carries. They live in
    the graph as Property nodes, each linked by a property link from the
    top-part island of the instant, so that every part of the instant
    sees the same properties. */
module Properties {
  import opened Wrappers
  import opened Chains
  import opened Graph
  import opened Api

  /** Set*: a concept is appended only when it is not there yet. */
  function Added(p: seq<Concept>, c: Concept): (r: seq<Concept>)
    ensures forall x :: x in r <==> x in p || x == c
    ensures |p| <= |r| && r[..|p|] == p
    ensures |r| == if c in p then |p| else |p| + 1
  {
    if c in p then p else p + [c]
  }

  /** No concept listed twice. */
  predicate Distinct(p: seq<Concept>) {
    forall i, j :: 0 <= i < j < |p| ==> p[i] != p[j]
  }

  /** The setters never create a duplicate... */
  lemma AddedDistinct(p: seq<Concept>, c: Concept)
    requires Distinct(p)
    ensures Distinct(Added(p, c))
  {
  }

  /** ...and setting a concept twice is setting it once. */
  lemma AddedIdempotent(p: seq<Concept>, c: Concept)
    ensures Added(Added(p, c), c) == Added(p, c)
  {
  }

  /** Instant::Properties: an array of concepts with a membership test and
      a setter for each of the four concepts. */
  class InstantProperties {
    var values: seq<Concept>

    constructor ()
      ensures values == []
    {
      values := [];
    }

    predicate Contains(c: Concept)
      reads this
    {
      c in values
    }

    predicate IsSystemBreak() reads this { Contains(SystemBreak) }
    predicate IsOptionalBreak() reads this { Contains(OptionalBreak) }
    predicate IsRepeatingInstant() reads this { Contains(RepeatingInstant) }
    predicate IsAbsorbedInstant() reads this { Contains(AbsorbedInstant) }

    method SetConcept(c: Concept)
      modifies this
      ensures values == Added(old(values), c)
    {
      if !Contains(c) {
        values := values + [c];
      }
    }

    method SetSystemBreak()
      modifies this
      ensures values == Added(old(values), SystemBreak)
    {
      SetConcept(SystemBreak);
    }

    method SetOptionalBreak()
      modifies this
      ensures values == Added(old(values), OptionalBreak)
    {
      SetConcept(OptionalBreak);
    }

    method SetRepeatingInstant()
      modifies this
      ensures values == Added(old(values), RepeatingInstant)
    {
      SetConcept(RepeatingInstant);
    }

    method SetAbsorbedInstant()
      modifies this
      ensures values == Added(old(values), AbsorbedInstant)
    {
      SetConcept(AbsorbedInstant);
    }
  }

  // The node tables of a graph, as values.

  /** Every link stays inside the tables (as MusicGraph.Valid demands). */
  predicate InRange(n: NodeTables) {
    && |n.links| == |n.kinds|
    && (forall h, l :: 0 <= h < |n.links| && l in n.links[h] ==> l.to < |n.kinds|)
  }

  /** FindAll<Property>(PropertyLink): the property nodes the links ls lead
      to, in link order. */
  function PropertyNodes(kinds: seq<NodeKind>, ls: seq<Link>): (r: seq<Handle>)
    ensures forall i :: 0 <= i < |r| ==> r[i] < |kinds| && kinds[r[i]].Property?
  {
    if ls == [] then []
    else
      var l := ls[0];
      (if l.kind == PropertyLink && l.to < |kinds| && kinds[l.to].Property? then [l.to] else [])
      + PropertyNodes(kinds, ls[1..])
  }

  /** Every property node a property link leads to is found. */
  lemma {:induction false} PropertyNodeFound(kinds: seq<NodeKind>, ls: seq<Link>, x: Handle)
    requires Link(PropertyLink, x) in ls && x < |kinds| && kinds[x].Property?
    ensures x in PropertyNodes(kinds, ls)
  {
    if ls[0] != Link(PropertyLink, x) {
      PropertyNodeFound(kinds, ls[1..], x);
    }
  }

  /** ...and only those. */
  lemma {:induction false} PropertyNodeLinked(kinds: seq<NodeKind>, ls: seq<Link>, x: Handle)
    requires x in PropertyNodes(kinds, ls)
    ensures Link(PropertyLink, x) in ls
  {
    var l := ls[0];
    if !(l.kind == PropertyLink && l.to == x) {
      assert x in PropertyNodes(kinds, ls[1..]);
      PropertyNodeLinked(kinds, ls[1..], x);
    }
  }

  /** The concepts of the property nodes node t leads to, in link order. */
  function PropertiesOf(n: NodeTables, t: Handle): seq<Concept>
    requires InRange(n) && t < |n.links|
  {
    var hs := PropertyNodes(n.kinds, n.links[t]);
    seq(|hs|, i requires 0 <= i < |hs| => n.kinds[hs[i]].concept)
  }

  /** No property node is linked from two nodes (property nodes are only
      made by attaching them to one node). */
  ghost predicate Owned(n: NodeTables) {
    forall a, b, x ::
      && 0 <= a < |n.links| && 0 <= b < |n.links| && 0 <= x < |n.kinds| && n.kinds[x].Property?
      && Link(PropertyLink, x) in n.links[a] && Link(PropertyLink, x) in n.links[b]
      ==> a == b
  }

  /** The tables after deleting the nodes hs: each becomes Deleted and
      loses its links. */
  function Deleting(n: NodeTables, hs: seq<Handle>): (r: NodeTables)
    ensures |r.kinds| == |n.kinds| && |r.links| == |n.links|
  {
    NodeTables(seq(|n.kinds|, h requires 0 <= h < |n.kinds| => if h in hs then Deleted else n.kinds[h]),
               seq(|n.links|, h requires 0 <= h < |n.links| => if h in hs then [] else n.links[h]),
               n.typesetting, n.customData)
  }

  lemma DeletingStep(n: NodeTables, hs: seq<Handle>, x: Handle)
    requires x < |n.kinds| == |n.links|
    ensures var d := Deleting(n, hs);
      Deleting(n, hs + [x]) == NodeTables(d.kinds[x := Deleted], d.links[x := []], d.typesetting, d.customData)
  {
  }

  /** ClearAndDeleteAll on the property nodes of node t. */
  function Cleared(n: NodeTables, t: Handle): (r: NodeTables)
    requires t < |n.links|
  {
    Deleting(n, PropertyNodes(n.kinds, n.links[t]))
  }

  /** The property links to the nodes start, start + 1, ... */
  function NewLinks(start: nat, count: nat): (r: seq<Link>)
    ensures |r| == count && forall i :: 0 <= i < count ==> r[i] == Link(PropertyLink, start + i)
  {
    if count == 0 then [] else NewLinks(start, count - 1) + [Link(PropertyLink, start + count - 1)]
  }

  /** new Property(t, c) for each concept c of p in turn: a property node
      per concept, appended to the tables, each linked from t. */
  function Attached(n: NodeTables, t: Handle, p: seq<Concept>): (r: NodeTables)
    requires t < |n.links|
    ensures |r.kinds| == |n.kinds| + |p| && |r.links| == |n.links| + |p|
  {
    NodeTables(n.kinds + seq(|p|, i requires 0 <= i < |p| => Property(p[i])),
               (n.links + Filled([], |p|))[t := n.links[t] + NewLinks(|n.kinds|, |p|)],
               n.typesetting + Filled(None, |p|), n.customData + Filled(None, |p|))
  }

  lemma AttachedStep(n: NodeTables, t: Handle, p: seq<Concept>, c: Concept)
    requires t < |n.links| == |n.kinds|
    ensures var a := Attached(n, t, p);
      Attached(n, t, p + [c]) ==
        NodeTables(a.kinds + [Property(c)],
                   (a.links + [[]])[t := a.links[t] + [Link(PropertyLink, |a.kinds|)]],
                   a.typesetting + [None], a.customData + [None])
  {
    var a := Attached(n, t, p);
    var b := Attached(n, t, p + [c]);
    var q := p + [c];
    assert seq(|q|, i requires 0 <= i < |q| => Property(q[i]))
        == seq(|p|, i requires 0 <= i < |p| => Property(p[i])) + [Property(c)];
    FilledStep<seq<Link>>([], |p|);
    assert b.kinds == a.kinds + [Property(c)];
    var L := n.links + Filled([], |p|);
    assert n.links + Filled([], |p| + 1) == L + [[]];
    assert b.links == (L + [[]])[t := n.links[t] + NewLinks(|n.kinds|, |p| + 1)];
    assert a.links + [[]] == (L + [[]])[t := a.links[t]];
    assert n.links[t] + NewLinks(|n.kinds|, |p| + 1) == a.links[t] + [Link(PropertyLink, |a.kinds|)];
    FilledStep<Option<TypesettingInfo>>(None, |p|);
    FilledStep<Option<nat>>(None, |p|);
  }

  lemma AttachedNone(n: NodeTables, t: Handle)
    requires t < |n.links|
    ensures Attached(n, t, []) == n
  {
    assert n.links[t] + NewLinks(|n.kinds|, 0) == n.links[t];
  }

  /** The mesh tables after allocating count nodes: each new node has no
      mesh links. */
  function Unlinked(m: MeshLinks, count: nat): (r: MeshLinks)
  {
    MeshLinks(m.across + Filled(None, count), m.acrossFrom + Filled(None, count),
              m.down + Filled(None, count), m.downFrom + Filled(None, count))
  }

  lemma UnlinkedStep(m: MeshLinks, count: nat)
    ensures var u := Unlinked(m, count);
      Unlinked(m, count + 1) == MeshLinks(u.across + [None], u.acrossFrom + [None], u.down + [None], u.downFrom + [None])
  {
    FilledAfter(m.across, None, count);
    FilledAfter(m.acrossFrom, None, count);
    FilledAfter(m.down, None, count);
    FilledAfter(m.downFrom, None, count);
  }

  // What clearing and setting do to the properties.

  /** After ClearProperties on t, no property node hangs off t. */
  lemma ClearedEmpty(n: NodeTables, t: Handle)
    requires InRange(n) && t < |n.links|
    ensures InRange(Cleared(n, t)) && PropertiesOf(Cleared(n, t), t) == []
  {
    var doomed := PropertyNodes(n.kinds, n.links[t]);
    var c := Cleared(n, t);
    assert c.links[t] == if t in doomed then [] else n.links[t];
    forall x: Handle | Link(PropertyLink, x) in c.links[t] && x < |c.kinds|
      ensures !c.kinds[x].Property?
    {
      assert c.kinds[x] == if x in doomed then Deleted else n.kinds[x];
      if n.kinds[x].Property? {
        PropertyNodeFound(n.kinds, n.links[t], x);
      }
    }
    NoPropertyNodes(c.kinds, c.links[t]);
  }

  lemma {:induction false} NoPropertyNodes(kinds: seq<NodeKind>, ls: seq<Link>)
    requires forall x: Handle :: Link(PropertyLink, x) in ls && x < |kinds| ==> !kinds[x].Property?
    ensures PropertyNodes(kinds, ls) == []
  {
    if ls != [] {
      assert ls[0] in ls;
      assert forall l :: l in ls[1..] ==> l in ls;
      NoPropertyNodes(kinds, ls[1..]);
    }
  }

  /** Appending property nodes for p to a node with none gives it
      exactly p. */
  lemma {:induction false} AttachedProperties(n: NodeTables, t: Handle, p: seq<Concept>)
    requires InRange(n) && t < |n.links| && PropertyNodes(n.kinds, n.links[t]) == []
    ensures InRange(Attached(n, t, p))
    ensures var r := PropertyNodes(Attached(n, t, p).kinds, Attached(n, t, p).links[t]);
      |r| == |p| && forall i :: 0 <= i < |p| ==> r[i] == |n.kinds| + i
    ensures PropertiesOf(Attached(n, t, p), t) == p
  {
    var a := Attached(n, t, p);
    var k := |n.kinds|;
    forall h, l | 0 <= h < |a.links| && l in a.links[h]
      ensures l.to < |a.kinds|
    {
      if h == t {
        assert l in n.links[t] || l in NewLinks(k, |p|);
      } else if h < |n.links| {
        assert a.links[h] == n.links[h];
      }
    }
    PropertyNodesAppend(a.kinds, n.links[t], NewLinks(k, |p|));
    PropertyNodesKept(n.kinds, a.kinds, n.links[t]);
    NewPropertyNodes(a.kinds, k, |p|);
  }

  /** FindAll over two runs of links is the two FindAlls in turn. */
  lemma {:induction false} PropertyNodesAppend(kinds: seq<NodeKind>, ls: seq<Link>, more: seq<Link>)
    ensures PropertyNodes(kinds, ls + more) == PropertyNodes(kinds, ls) + PropertyNodes(kinds, more)
  {
    if ls == [] {
      assert ls + more == more;
    } else {
      assert (ls + more)[0] == ls[0] && (ls + more)[1..] == ls[1..] + more;
      PropertyNodesAppend(kinds, ls[1..], more);
    }
  }

  /** FindAll reads only the kinds of the nodes the links lead to. */
  lemma {:induction false} PropertyNodesKept(kinds: seq<NodeKind>, kinds2: seq<NodeKind>, ls: seq<Link>)
    requires forall l :: l in ls && l.kind == PropertyLink ==> l.to < |kinds| <= |kinds2| && kinds2[l.to] == kinds[l.to]
    ensures PropertyNodes(kinds2, ls) == PropertyNodes(kinds, ls)
  {
    if ls != [] {
      assert ls[0] in ls;
      assert forall l :: l in ls[1..] ==> l in ls;
      PropertyNodesKept(kinds, kinds2, ls[1..]);
      var l := ls[0];
      assert PropertyNodes(kinds, ls) ==
        (if l.kind == PropertyLink && l.to < |kinds| && kinds[l.to].Property? then [l.to] else [])
        + PropertyNodes(kinds, ls[1..]);
    }
  }

  /** The links made by SetProperties lead to the new property nodes, in
      the order they were made. */
  lemma {:induction false} NewPropertyNodes(kinds: seq<NodeKind>, start: nat, count: nat)
    requires start + count <= |kinds|
    requires forall i :: start <= i < start + count ==> kinds[i].Property?
    ensures var r := PropertyNodes(kinds, NewLinks(start, count));
      |r| == count && forall i :: 0 <= i < count ==> r[i] == start + i
    decreases count
  {
    if count > 0 {
      var last := Link(PropertyLink, start + count - 1);
      NewPropertyNodes(kinds, start, count - 1);
      PropertyNodesAppend(kinds, NewLinks(start, count - 1), [last]);
      assert [last][1..] == [];
      assert PropertyNodes(kinds, [last]) == [start + count - 1];
    }
  }

  // The operations on the graph.

  /** The properties of the instant of node n: none when n is not an
      island, otherwise the concepts carried by its top-part island. */
  function PropertiesAt(g: MusicGraph, n: Option<Handle>): (r: Option<seq<Concept>>)
    reads g
    requires g.Valid() && (n.Some? ==> n.value < |g.kinds|)
    requires IsIsland(g, n) ==> Ends(g.downFrom, n.value)
    ensures r.Some? <==> IsIsland(g, n)
  {
    match TopPart(g, n)
    case None => None
    case Some(t) => Some(PropertiesOf(g.Nodes(), t))
  }

  /** Instant::GetProperties: p is left as it was when n is not an island;
      otherwise it becomes the values of the property nodes of the top
      part, in link order. */
  method GetProperties(g: MusicGraph, p0: seq<Concept>, n: Option<Handle>) returns (p: seq<Concept>)
    requires g.Valid() && (n.Some? ==> n.value < |g.kinds|)
    requires IsIsland(g, n) ==> Ends(g.downFrom, n.value)
    ensures p == PropertiesAt(g, n).GetOr(p0)
  {
    var found, t := RaiseToTopPart(g, n);
    if !found {
      return p0;
    }
    var nodes := PropertyNodes(g.kinds, g.links[t.value]);
    ghost var all := PropertiesOf(g.Nodes(), t.value);
    p := [];
    var i := 0;
    while i < |nodes|
      invariant 0 <= i <= |nodes| && p == all[..i]
    {
      p := p + [g.kinds[nodes[i]].concept];
      i := i + 1;
    }
  }

  /** Instant::ClearProperties on a node: nothing for a node that is not
      an island; otherwise every property node of the top part is
      deleted, and the instant has no properties left. */
  method ClearProperties(g: MusicGraph, n: Option<Handle>) returns (ghost t: Option<Handle>)
    requires g.Valid() && (n.Some? ==> n.value < |g.kinds|)
    requires IsIsland(g, n) ==> Ends(g.downFrom, n.value)
    modifies g
    ensures g.Valid() && t == old(TopPart(g, n))
    ensures g.Nodes() == if t.Some? then Cleared(old(g.Nodes()), t.value) else old(g.Nodes())
    ensures g.MeshTables() == old(g.MeshTables()) && g.top == old(g.top)
    ensures IsIsland(g, n) == old(IsIsland(g, n))
    ensures IsIsland(g, n) ==> PropertiesAt(g, n) == Some([])
  {
    var found, top := RaiseToTopPart(g, n);
    t := top;
    if !found {
      return;
    }
    ghost var n0 := g.Nodes();
    var nodes := PropertyNodes(g.kinds, g.links[top.value]);
    DeleteAll(g, nodes);
    assert n.value !in nodes;
    ClearedEmpty(n0, top.value);
  }

  /** ClearAndDeleteAll: each node of hs is deleted in turn. */
  method DeleteAll(g: MusicGraph, hs: seq<Handle>)
    requires g.Valid() && forall i :: 0 <= i < |hs| ==> hs[i] < |g.kinds|
    modifies g
    ensures g.Valid() && g.Nodes() == Deleting(old(g.Nodes()), hs)
    ensures g.MeshTables() == old(g.MeshTables()) && g.top == old(g.top)
  {
    ghost var n0 := g.Nodes();
    var i := 0;
    while i < |hs|
      invariant g.Valid() && 0 <= i <= |hs|
      invariant |g.kinds| == |n0.kinds| && g.Nodes() == Deleting(n0, hs[..i])
      invariant g.MeshTables() == old(g.MeshTables()) && g.top == old(g.top)
    {
      DeletingStep(n0, hs[..i], hs[i]);
      assert hs[..i + 1] == hs[..i] + [hs[i]];
      g.DeleteNode(hs[i]);
      i := i + 1;
    }
    assert hs[..i] == hs;
  }

  /** Instant::SetProperties: the properties of the instant of n are
      cleared, then one property node per concept of p is attached to the
      top part, so that the instant's properties become exactly p. */
  method SetProperties(g: MusicGraph, p: seq<Concept>, n: Option<Handle>) returns (ghost t: Option<Handle>)
    requires g.Valid() && (n.Some? ==> n.value < |g.kinds|)
    requires IsIsland(g, n) ==> Ends(g.downFrom, n.value)
    modifies g
    ensures g.Valid() && t == old(TopPart(g, n)) && g.top == old(g.top)
    ensures t.None? ==> g.Nodes() == old(g.Nodes()) && g.MeshTables() == old(g.MeshTables())
    ensures t.Some? ==> g.Nodes() == Attached(Cleared(old(g.Nodes()), t.value), t.value, p)
    ensures t.Some? ==> g.MeshTables() == Unlinked(old(g.MeshTables()), |p|)
    ensures IsIsland(g, n) == old(IsIsland(g, n))
    ensures IsIsland(g, n) ==> Ends(g.downFrom, n.value) && PropertiesAt(g, n) == Some(p)
  {
    t := ClearProperties(g, n);
    var found, top := RaiseToTopPart(g, n);
    if !found {
      return;
    }
    ghost var n1, m1 := g.Nodes(), g.MeshTables();
    AttachAll(g, top.value, p);
    AttachedProperties(n1, top.value, p);
    ChainExtended(m1.downFrom, Filled(None, |p|), n.value);
  }

  /** new Property(t, c) for each concept c of p in turn. */
  method AttachAll(g: MusicGraph, t: Handle, p: seq<Concept>)
    requires g.Valid() && t < |g.kinds|
    modifies g
    ensures g.Valid() && g.Nodes() == Attached(old(g.Nodes()), t, p)
    ensures g.MeshTables() == Unlinked(old(g.MeshTables()), |p|) && g.top == old(g.top)
  {
    ghost var n1, m1 := g.Nodes(), g.MeshTables();
    AttachedNone(n1, t);
    var i := 0;
    while i < |p|
      invariant g.Valid() && 0 <= i <= |p| && g.top == old(g.top)
      invariant g.Nodes() == Attached(n1, t, p[..i])
      invariant g.MeshTables() == Unlinked(m1, i)
    {
      assert p[..i + 1] == p[..i] + [p[i]];
      AttachOne(g, t, p[i], n1, m1, p[..i]);
      i := i + 1;
    }
    assert p[..i] == p;
  }

  /** new Property(t, c): a property node for c, linked from t. */
  method AttachOne(g: MusicGraph, t: Handle, c: Concept, ghost n1: NodeTables, ghost m1: MeshLinks, ghost q: seq<Concept>)
    requires g.Valid() && t < |n1.kinds| == |n1.links|
    requires g.Nodes() == Attached(n1, t, q) && g.MeshTables() == Unlinked(m1, |q|)
    modifies g
    ensures g.Valid() && g.top == old(g.top)
    ensures g.Nodes() == Attached(n1, t, q + [c]) && g.MeshTables() == Unlinked(m1, |q| + 1)
  {
    AttachedStep(n1, t, q, c);
    UnlinkedStep(m1, |q|);
    var h := g.AddNode(Property(c));
    g.AddLink(t, PropertyLink, h);
  }

  // The default properties of the top row.

  /** The flags SetDefaultProperties carries along the top row: whether
      the initial material still lasts, and whether a barline, a clef and
      a key signature have been marked in it. */
  datatype Scan = Scan(initial: bool, barline: bool, clef: bool, key: bool)

  /** One token island of the top row: the concepts it is given and the
      flags after it. */
  function Choose(s: Scan, t: NodeKind): (Scan, seq<Concept>)
  {
    if s.initial then
      if t.BarlineToken? && !s.barline then (s.(barline := true), [RepeatingInstant])
      else if t.ClefToken? && !s.clef then (s.(clef := true), [RepeatingInstant])
      else if t.KeySignatureToken? && !s.key then (s.(key := true), [RepeatingInstant])
      else (s.(initial := false), [])
    else if t.BarlineToken? then (s, [OptionalBreak])
    else (s, [])
  }

  /** The flags after the token islands ts, starting with initial
      material and nothing marked. */
  function Flags(ts: seq<NodeKind>): Scan
  {
    if ts == [] then Scan(true, false, false, false)
    else Choose(Flags(ts[..|ts| - 1]), ts[|ts| - 1]).0
  }

  /** The tokens of the islands that have one, in row order. */
  function Present(tokens: seq<Option<NodeKind>>): (r: seq<NodeKind>)
    ensures |r| <= |tokens|
  {
    if tokens == [] then []
    else
      var k := |tokens| - 1;
      Present(tokens[..k]) + (if tokens[k].Some? then [tokens[k].value] else [])
  }

  /** What SetDefaultProperties gives each island of the top row, given
      the token each one leads to: nothing for an island without a token
      (it is skipped), otherwise the concepts Choose picks. */
  function Chosen(tokens: seq<Option<NodeKind>>): (r: seq<Option<seq<Concept>>>)
    ensures |r| == |tokens|
  {
    seq(|tokens|, i requires 0 <= i < |tokens| =>
      if tokens[i].None? then None
      else Some(Choose(Flags(Present(tokens[..i])), tokens[i].value).1))
  }

  /** The three kinds of initial material: barlines, clefs and key
      signatures; every other token is of class 3. */
  function Class(t: NodeKind): nat {
    if t.BarlineToken? then 0 else if t.ClefToken? then 1 else if t.KeySignatureToken? then 2 else 3
  }

  /** ts is initial material only: barlines, clefs and key signatures, no
      two of the same kind. */
  predicate Opening(ts: seq<NodeKind>) {
    && (forall k :: 0 <= k < |ts| ==> Class(ts[k]) < 3)
    && (forall j, k :: 0 <= j < k < |ts| ==> Class(ts[j]) != Class(ts[k]))
  }

  predicate HasClass(ts: seq<NodeKind>, c: nat) {
    exists k :: 0 <= k < |ts| && Class(ts[k]) == c
  }

  lemma OpeningStep(ps: seq<NodeKind>, t: NodeKind)
    ensures Opening(ps + [t]) <==> Opening(ps) && Class(t) < 3 && !HasClass(ps, Class(t))
  {
    if Opening(ps + [t]) {
      OpeningPrefix(ps, t);
    }
    if Opening(ps) && Class(t) < 3 && !HasClass(ps, Class(t)) {
      OpeningExtended(ps, t);
    }
  }

  lemma OpeningPrefix(ps: seq<NodeKind>, t: NodeKind)
    requires Opening(ps + [t])
    ensures Opening(ps) && Class(t) < 3 && !HasClass(ps, Class(t))
  {
    var ts := ps + [t];
    assert forall k :: 0 <= k < |ps| ==> ps[k] == ts[k];
    assert ts[|ps|] == t;
  }

  lemma OpeningExtended(ps: seq<NodeKind>, t: NodeKind)
    requires Opening(ps) && Class(t) < 3 && !HasClass(ps, Class(t))
    ensures Opening(ps + [t])
  {
    var ts := ps + [t];
    forall j, k | 0 <= j < k < |ts|
      ensures Class(ts[j]) != Class(ts[k])
    {
      assert ts[j] == ps[j];
      if k < |ps| {
        assert ts[k] == ps[k];
      }
    }
    assert forall k :: 0 <= k < |ts| ==> Class(ts[k]) < 3;
  }

  lemma HasClassStep(ps: seq<NodeKind>, t: NodeKind, c: nat)
    ensures HasClass(ps + [t], c) <==> HasClass(ps, c) || Class(t) == c
  {
    var ts := ps + [t];
    if HasClass(ts, c) && Class(t) != c {
      var k :| 0 <= k < |ts| && Class(ts[k]) == c;
      assert Class(ps[k]) == c;
    }
    if HasClass(ps, c) {
      var k :| 0 <= k < |ps| && Class(ps[k]) == c;
      assert Class(ts[k]) == c;
    }
    if Class(t) == c {
      assert Class(ts[|ps|]) == c;
    }
  }

  /** Whether a token of class c is among ts. */
  function Seen(ts: seq<NodeKind>, c: nat): (r: bool)
  {
    if ts == [] then false
    else Seen(ts[..|ts| - 1], c) || Class(ts[|ts| - 1]) == c
  }

  /** Whether ts, read in order, is all initial material. */
  predicate InitialMaterial(ts: seq<NodeKind>)
  {
    ts == [] ||
      var ps, t := ts[..|ts| - 1], ts[|ts| - 1];
      InitialMaterial(ps) && Class(t) < 3 && !Seen(ps, Class(t))
  }

  lemma {:induction false} SeenMeaning(ts: seq<NodeKind>, c: nat)
    ensures Seen(ts, c) <==> HasClass(ts, c)
  {
    if ts != [] {
      var ps, t := ts[..|ts| - 1], ts[|ts| - 1];
      assert ts == ps + [t];
      SeenMeaning(ps, c);
      HasClassStep(ps, t, c);
    }
  }

  lemma {:induction false} InitialMeaning(ts: seq<NodeKind>)
    ensures InitialMaterial(ts) <==> Opening(ts)
  {
    if ts != [] {
      var ps, t := ts[..|ts| - 1], ts[|ts| - 1];
      assert ts == ps + [t];
      InitialMeaning(ps);
      SeenMeaning(ps, Class(t));
      OpeningStep(ps, t);
    }
  }

  /** The flags mean what they say: initial material lasts exactly while
      the tokens seen are initial material, and meanwhile each flag says
      whether its kind of token has been seen. */
  lemma {:induction false} FlagsMeaning(ts: seq<NodeKind>)
    ensures Flags(ts).initial <==> InitialMaterial(ts)
    ensures InitialMaterial(ts) ==> Flags(ts) == Scan(true, Seen(ts, 0), Seen(ts, 1), Seen(ts, 2))
  {
    if ts != [] {
      FlagsMeaning(ts[..|ts| - 1]);
    }
  }

  /** SetDefaultProperties, island by island: a token island that extends
      the initial material is a repeating instant; once initial material
      has ended (the token that ends it gets nothing), every barline island
      gets an optional break and every other token island nothing. */
  lemma ChosenMeaning(tokens: seq<Option<NodeKind>>, i: nat)
    requires i < |tokens| && tokens[i].Some?
    ensures var ps, t := Present(tokens[..i]), tokens[i].value;
      Chosen(tokens)[i] == Some(
        if Opening(ps + [t]) then [RepeatingInstant]
        else if !Opening(ps) && t.BarlineToken? then [OptionalBreak]
        else [])
  {
    var ps, t := Present(tokens[..i]), tokens[i].value;
    ChooseMeaning(ps, t);
    InitialMeaning(ps);
    InitialMeaning(ps + [t]);
  }

  lemma ChooseMeaning(ps: seq<NodeKind>, t: NodeKind)
    ensures Choose(Flags(ps), t).1 ==
      if InitialMaterial(ps + [t]) then [RepeatingInstant]
      else if !InitialMaterial(ps) && t.BarlineToken? then [OptionalBreak]
      else []
  {
    FlagsMeaning(ps);
    assert (ps + [t])[..|ps|] == ps;
  }

  /** Reading one more island of the row moves the flags on by its token,
      if it has one. */
  lemma FlagsStep(tokens: seq<Option<NodeKind>>, i: nat)
    requires i < |tokens|
    ensures Flags(Present(tokens[..i + 1])) ==
      if tokens[i].Some? then Choose(Flags(Present(tokens[..i])), tokens[i].value).0
      else Flags(Present(tokens[..i]))
  {
    assert tokens[..i + 1][..i] == tokens[..i];
    var ps := Present(tokens[..i]);
    if tokens[i].Some? {
      assert Present(tokens[..i + 1]) == ps + [tokens[i].value];
      assert (ps + [tokens[i].value])[..|ps|] == ps;
    } else {
      assert Present(tokens[..i + 1]) == ps + [];
      assert ps + [] == ps;
    }
  }

  // The walk along the top row.

  /** Find<Token>(TokenLink) on h: the node its first token link leads to,
      when that node is a token. */
  function TokenOf(n: NodeTables, h: Handle): (r: Option<NodeKind>)
    requires InRange(n) && h < |n.links|
    ensures r.Some? ==> r.value.IsToken()
  {
    var ts := Targets(n.links[h], TokenLink);
    if ts == [] then None
    else
      assert Link(TokenLink, ts[0]) in n.links[h];
      if n.kinds[ts[0]].IsToken() then Some(n.kinds[ts[0]]) else None
  }

  /** Links of other kinds after ls do not change what Find sees. */
  lemma {:induction false} TargetsAppend(ls: seq<Link>, more: seq<Link>, kind: LinkKind)
    requires forall l :: l in more ==> l.kind != kind
    ensures Targets(ls + more, kind) == Targets(ls, kind)
  {
    if ls == [] {
      assert ls + more == more;
      if more != [] {
        assert more[0] in more;
        assert forall l :: l in more[1..] ==> l in more;
        TargetsAppend([], more[1..], kind);
        assert [] + more[1..] == more[1..];
      }
    } else {
      assert (ls + more)[0] == ls[0] && (ls + more)[1..] == ls[1..] + more;
      TargetsAppend(ls[1..], more, kind);
    }
  }

  /** An old node after setting the properties of t: deleted when it was
      one of t's property nodes, otherwise as it was. */
  lemma ResetKind(n: NodeTables, t: Handle, p: seq<Concept>, x: Handle)
    requires InRange(n) && t < |n.links| && x < |n.kinds|
    ensures Attached(Cleared(n, t), t, p).kinds[x] ==
      if x in PropertyNodes(n.kinds, n.links[t]) then Deleted else n.kinds[x]
  {
  }

  /** The links of an old node after setting the properties of t: gone
      when it was one of t's property nodes, and t's own followed by the
      links to the new ones. */
  lemma ResetLinks(n: NodeTables, t: Handle, p: seq<Concept>, u: Handle)
    requires InRange(n) && t < |n.links| && u < |n.links|
    ensures Attached(Cleared(n, t), t, p).links[u] ==
      (if u in PropertyNodes(n.kinds, n.links[t]) then [] else n.links[u]) +
      (if u == t then NewLinks(|n.kinds|, |p|) else [])
  {
    var doomed := PropertyNodes(n.kinds, n.links[t]);
    var c := Cleared(n, t);
    assert c.links[u] == if u in doomed then [] else n.links[u];
    if u != t {
      assert c.links[u] + [] == c.links[u];
    }
  }

  /** Setting the properties of t leaves every node that is not a
      property node as it was. */
  lemma KindsKept(n: NodeTables, t: Handle, p: seq<Concept>, h: Handle)
    requires InRange(n) && t < |n.links| && h < |n.kinds| && !n.kinds[h].Property?
    ensures Attached(Cleared(n, t), t, p).kinds[h] == n.kinds[h]
  {
    ResetKind(n, t, p, h);
  }

  /** ...and what its token link leads to. */
  lemma TokenKept(n: NodeTables, t: Handle, p: seq<Concept>, h: Handle)
    requires InRange(n) && t < |n.links| && h < |n.kinds| && !n.kinds[h].Property?
    ensures InRange(Attached(Cleared(n, t), t, p))
    ensures TokenOf(Attached(Cleared(n, t), t, p), h) == TokenOf(n, h)
  {
    var a := Attached(Cleared(n, t), t, p);
    ClearedEmpty(n, t);
    AttachedProperties(Cleared(n, t), t, p);
    ResetLinks(n, t, p, h);
    if h == t {
      assert forall l :: l in NewLinks(|n.kinds|, |p|) ==> l.kind == PropertyLink;
      TargetsAppend(n.links[t], NewLinks(|n.kinds|, |p|), TokenLink);
    } else {
      assert a.links[h] == n.links[h] + [];
      assert n.links[h] + [] == n.links[h];
    }
    forall x: Handle | Link(TokenLink, x) in n.links[h]
      ensures x < |n.kinds| && (a.kinds[x].IsToken() || n.kinds[x].IsToken() ==> a.kinds[x] == n.kinds[x])
    {
      ResetKind(n, t, p, x);
    }
    SameToken(a, n, h);
  }

  /** Two tables that agree on h's token links and on the tokens they
      lead to give h the same token. */
  lemma SameToken(a: NodeTables, n: NodeTables, h: Handle)
    requires InRange(a) && InRange(n) && h < |a.links| && h < |n.links|
    requires Targets(a.links[h], TokenLink) == Targets(n.links[h], TokenLink)
    requires forall x: Handle :: Link(TokenLink, x) in n.links[h] ==>
      x < |n.kinds| && (a.kinds[x].IsToken() || n.kinds[x].IsToken() ==> a.kinds[x] == n.kinds[x])
    ensures TokenOf(a, h) == TokenOf(n, h)
  {
    var ts := Targets(n.links[h], TokenLink);
    if ts != [] {
      assert Link(TokenLink, ts[0]) in n.links[h];
    }
  }

  /** Where no property node is shared, setting the properties of t
      leaves those of every other node as they were. */
  lemma OthersKept(n: NodeTables, t: Handle, p: seq<Concept>, u: Handle)
    requires InRange(n) && Owned(n) && t < |n.links| && u < |n.kinds| && u != t && !n.kinds[u].Property?
    ensures InRange(Attached(Cleared(n, t), t, p))
    ensures PropertiesOf(Attached(Cleared(n, t), t, p), u) == PropertiesOf(n, u)
  {
    var a := Attached(Cleared(n, t), t, p);
    ClearedEmpty(n, t);
    AttachedProperties(Cleared(n, t), t, p);
    ResetLinks(n, t, p, u);
    assert a.links[u] == n.links[u] + [];
    assert n.links[u] + [] == n.links[u];
    forall x: Handle | Link(PropertyLink, x) in n.links[u]
      ensures x < |n.kinds| && a.kinds[x] == n.kinds[x]
    {
      NotShared(n, t, u, x);
      ResetKind(n, t, p, x);
    }
    PropertyNodesKept(n.kinds, a.kinds, n.links[u]);
    var hs := PropertyNodes(n.kinds, n.links[u]);
    forall i | 0 <= i < |hs|
      ensures a.kinds[hs[i]] == n.kinds[hs[i]]
    {
      PropertyNodeLinked(n.kinds, n.links[u], hs[i]);
    }
  }

  /** A property node of t is linked from t alone. */
  lemma NotShared(n: NodeTables, t: Handle, u: Handle, x: Handle)
    requires InRange(n) && Owned(n) && t < |n.links| && u < |n.links|
    requires Link(PropertyLink, x) in n.links[u]
    ensures x in PropertyNodes(n.kinds, n.links[t]) ==> u == t
  {
    if x in PropertyNodes(n.kinds, n.links[t]) {
      PropertyNodeLinked(n.kinds, n.links[t], x);
    }
  }

  /** Setting properties keeps property nodes unshared. */
  lemma OwnedKept(n: NodeTables, t: Handle, p: seq<Concept>)
    requires InRange(n) && Owned(n) && t < |n.links|
    ensures Owned(Attached(Cleared(n, t), t, p))
  {
    var doomed := PropertyNodes(n.kinds, n.links[t]);
    var c := Cleared(n, t);
    var a := Attached(c, t, p);
    var k := |n.kinds|;
    forall u, v, x |
      && 0 <= u < |a.links| && 0 <= v < |a.links| && 0 <= x < |a.kinds| && a.kinds[x].Property?
      && Link(PropertyLink, x) in a.links[u] && Link(PropertyLink, x) in a.links[v]
      ensures u == v
    {
      LinkedFrom(n, t, p, u, x);
      LinkedFrom(n, t, p, v, x);
    }
  }

  /** Who links to a property node after setting the properties of t: t
      alone for a new node, and for an old one whoever linked to it
      before. */
  lemma LinkedFrom(n: NodeTables, t: Handle, p: seq<Concept>, u: Handle, x: Handle)
    requires InRange(n) && t < |n.links|
    requires var a := Attached(Cleared(n, t), t, p);
      u < |a.links| && x < |a.kinds| && a.kinds[x].Property? && Link(PropertyLink, x) in a.links[u]
    ensures x >= |n.kinds| ==> u == t
    ensures x < |n.kinds| ==> u < |n.kinds| && n.kinds[x].Property? && Link(PropertyLink, x) in n.links[u]
  {
    var k := |n.kinds|;
    if u < k {
      ResetLinks(n, t, p, u);
    }
    if x < k {
      ResetKind(n, t, p, x);
    }
  }

  // SetDefaultProperties: the walk along the top row.

  lemma UnlinkedTwice(m: MeshLinks, a: nat, b: nat)
    ensures Unlinked(Unlinked(m, a), b) == Unlinked(m, a + b)
  {
    assert Filled<Option<Handle>>(None, a) + Filled(None, b) == Filled(None, a + b);
  }

  /** The concepts most recently given to top part u by the islands of
      the row so far: by the last one that raised to u and had a token. */
  function LastChoice(tops: seq<Option<Handle>>, chosen: seq<Option<seq<Concept>>>, u: Handle): Option<seq<Concept>>
    requires |tops| == |chosen|
  {
    if tops == [] then None
    else
      var k := |tops| - 1;
      if tops[k] == Some(u) && chosen[k].Some? then chosen[k]
      else LastChoice(tops[..k], chosen[..k], u)
  }

  /** The tables after the islands of the row so far had their concepts
      set: each one with a top part and a choice clears that top part's
      properties and attaches the chosen ones (SetProperties). */
  ghost function Walked(n0: NodeTables, tops: seq<Option<Handle>>, chosen: seq<Option<seq<Concept>>>): (r: NodeTables)
    requires InRange(n0) && |tops| == |chosen|
    requires forall j :: 0 <= j < |tops| && tops[j].Some? ==> tops[j].value < |n0.kinds|
    ensures InRange(r) && |n0.kinds| <= |r.kinds|
    decreases |tops|
  {
    if tops == [] then n0
    else
      var k := |tops| - 1;
      var n := Walked(n0, tops[..k], chosen[..k]);
      if tops[k].Some? && chosen[k].Some? then
        ClearedEmpty(n, tops[k].value);
        AttachedProperties(Cleared(n, tops[k].value), tops[k].value, chosen[k].value);
        Attached(Cleared(n, tops[k].value), tops[k].value, chosen[k].value)
      else n
  }

  /** The walk keeps the kind and the token of every node that is not a
      property node. */
  lemma {:induction false} WalkedKept(n0: NodeTables, tops: seq<Option<Handle>>, chosen: seq<Option<seq<Concept>>>, h: Handle)
    requires InRange(n0) && |tops| == |chosen|
    requires forall j :: 0 <= j < |tops| && tops[j].Some? ==> tops[j].value < |n0.kinds|
    requires h < |n0.kinds| && !n0.kinds[h].Property?
    ensures Walked(n0, tops, chosen).kinds[h] == n0.kinds[h]
    ensures TokenOf(Walked(n0, tops, chosen), h) == TokenOf(n0, h)
    decreases |tops|
  {
    if tops != [] {
      var k := |tops| - 1;
      WalkedKept(n0, tops[..k], chosen[..k], h);
      if tops[k].Some? && chosen[k].Some? {
        var n := Walked(n0, tops[..k], chosen[..k]);
        KindsKept(n, tops[k].value, chosen[k].value, h);
        TokenKept(n, tops[k].value, chosen[k].value, h);
      }
    }
  }

  /** The walk keeps property nodes unshared. */
  lemma {:induction false} WalkedOwned(n0: NodeTables, tops: seq<Option<Handle>>, chosen: seq<Option<seq<Concept>>>)
    requires InRange(n0) && |tops| == |chosen| && Owned(n0)
    requires forall j :: 0 <= j < |tops| && tops[j].Some? ==> tops[j].value < |n0.kinds|
    ensures Owned(Walked(n0, tops, chosen))
    decreases |tops|
  {
    if tops != [] {
      var k := |tops| - 1;
      WalkedOwned(n0, tops[..k], chosen[..k]);
      if tops[k].Some? && chosen[k].Some? {
        OwnedKept(Walked(n0, tops[..k], chosen[..k]), tops[k].value, chosen[k].value);
      }
    }
  }

  /** Property nodes being unshared, after the walk each node that is not
      a property node carries the concepts last chosen for it, or those it
      had before. */
  lemma {:induction false} WalkedProperties(n0: NodeTables, tops: seq<Option<Handle>>, chosen: seq<Option<seq<Concept>>>, u: Handle)
    requires InRange(n0) && |tops| == |chosen| && Owned(n0)
    requires forall j :: 0 <= j < |tops| && tops[j].Some? ==> tops[j].value < |n0.kinds|
    requires u < |n0.kinds| && !n0.kinds[u].Property?
    ensures PropertiesOf(Walked(n0, tops, chosen), u) == LastChoice(tops, chosen, u).GetOr(PropertiesOf(n0, u))
    decreases |tops|
  {
    if tops != [] {
      var k := |tops| - 1;
      var n := Walked(n0, tops[..k], chosen[..k]);
      WalkedProperties(n0, tops[..k], chosen[..k], u);
      if tops[k].Some? && chosen[k].Some? {
        var t := tops[k].value;
        if u == t {
          ClearedEmpty(n, t);
          AttachedProperties(Cleared(n, t), t, chosen[k].value);
        } else {
          WalkedOwned(n0, tops[..k], chosen[..k]);
          WalkedKept(n0, tops[..k], chosen[..k], u);
          OthersKept(n, t, chosen[k].value, u);
        }
      }
    }
  }

  /** Where the islands of the row are distinct and each is its own top
      part, island j ends up carrying exactly the concepts chosen for it. */
  lemma {:induction false} LastChoiceOwn(tops: seq<Option<Handle>>, chosen: seq<Option<seq<Concept>>>, j: nat)
    requires |tops| == |chosen| && j < |tops| && tops[j].Some?
    requires forall a, b :: 0 <= a < b < |tops| && tops[a].Some? ==> tops[a] != tops[b]
    ensures LastChoice(tops, chosen, tops[j].value) == chosen[j]
    decreases |tops|
  {
    var k := |tops| - 1;
    if j < k {
      assert tops[..k][j] == tops[j];
      LastChoiceOwn(tops[..k], chosen[..k], j);
    } else if chosen[j].None? {
      LastChoiceNone(tops[..k], chosen[..k], tops[j].value);
    }
  }

  lemma {:induction false} LastChoiceNone(tops: seq<Option<Handle>>, chosen: seq<Option<seq<Concept>>>, u: Handle)
    requires |tops| == |chosen| && Some(u) !in tops
    ensures LastChoice(tops, chosen, u) == None
    decreases |tops|
  {
    if tops != [] {
      var k := |tops| - 1;
      assert forall x :: x in tops[..k] ==> x in tops;
      LastChoiceNone(tops[..k], chosen[..k], u);
    }
  }

  /** The mesh grew only by unlinked entries for the nodes added since n0. */
  ghost predicate MeshGrown(n0: NodeTables, m0: MeshLinks, n: NodeTables, m: MeshLinks)
  {
    |n0.kinds| <= |n.kinds| && m == Unlinked(m0, |n.kinds| - |n0.kinds|)
  }

  lemma MeshGrownStep(n0: NodeTables, m0: MeshLinks, n: NodeTables, m: MeshLinks, t: Handle, p: seq<Concept>)
    requires MeshGrown(n0, m0, n, m) && t < |n.links|
    ensures MeshGrown(n0, m0, Attached(Cleared(n, t), t, p), Unlinked(m, |p|))
  {
    UnlinkedTwice(m0, |n.kinds| - |n0.kinds|, |p|);
  }

  /** What the walk relies on: the top row ends, none of its nodes is a
      property node, and each island on it can be raised to its top part. */
  ghost predicate RowReady(g: MusicGraph)
    reads g
    requires g.Valid()
  {
    g.top.Some? ==>
      && Ends(g.across, g.top.value)
      && forall h :: h in Chain(g.across, g.top.value) ==>
           !g.kinds[h].Property? && (g.kinds[h].Island? ==> Ends(g.downFrom, h))
  }

  /** The nodes of the top row, from the top island along part-wise links. */
  ghost function RowOf(g: MusicGraph): (r: seq<Handle>)
    reads g
    requires g.Valid() && RowReady(g)
    ensures RowFacts(g.Nodes(), g.MeshTables(), r)
    ensures g.top.Some? ==> Ends(g.across, g.top.value) && r == Chain(g.across, g.top.value)
    ensures g.top.None? ==> r == []
  {
    if g.top.None? then [] else Chain(g.across, g.top.value)
  }

  /** Node h can be visited: a node of the tables that is not a property
      node and, if an island, one that can be raised to its top part. */
  ghost predicate Visitable(n0: NodeTables, m0: MeshLinks, h: Handle)
  {
    h < |n0.kinds| && h < |m0.downFrom| && !n0.kinds[h].Property? &&
    (n0.kinds[h].Island? ==> Ends(m0.downFrom, h))
  }

  /** The top part node h raises to (TopPart). */
  ghost function TopOf(n0: NodeTables, m0: MeshLinks, h: Handle): (r: Option<Handle>)
    requires Visitable(n0, m0, h)
    ensures r.Some? ==> r.value < |m0.downFrom|
  {
    if n0.kinds[h].Island? then Some(Last(m0.downFrom, h)) else None
  }

  /** The top part each node of the row raises to. */
  ghost function Tops(n0: NodeTables, m0: MeshLinks, row: seq<Handle>): (r: seq<Option<Handle>>)
    requires forall j :: 0 <= j < |row| ==> Visitable(n0, m0, row[j])
    ensures |r| == |row|
    ensures forall j :: 0 <= j < |row| ==> r[j].Some? ==> r[j].value < |m0.downFrom|
  {
    seq(|row|, j requires 0 <= j < |row| => TopOf(n0, m0, row[j]))
  }

  /** The token each node of the row leads to. */
  ghost function Tokens(n0: NodeTables, row: seq<Handle>): (r: seq<Option<NodeKind>>)
    requires InRange(n0) && forall j :: 0 <= j < |row| ==> row[j] < |n0.kinds|
    ensures |r| == |row|
  {
    seq(|row|, j requires 0 <= j < |row| => TokenOf(n0, row[j]))
  }

  /** What the walk knows of the row it started on. */
  ghost predicate RowFacts(n0: NodeTables, m0: MeshLinks, row: seq<Handle>)
  {
    && InRange(n0) && |m0.across| == |n0.kinds| && |m0.downFrom| == |n0.kinds|
    && forall j :: 0 <= j < |row| ==> Visitable(n0, m0, row[j])
  }

  /** The tables SetDefaultProperties leaves behind: the walk over the
      whole row. */
  ghost function Defaults(n0: NodeTables, m0: MeshLinks, row: seq<Handle>): (r: NodeTables)
    requires RowFacts(n0, m0, row)
  {
    Walked(n0, Tops(n0, m0, row), Chosen(Tokens(n0, row)))
  }

  /** Walks the top row, choosing the concepts of each island that has a
      token from the tokens met so far (Choose) and setting them on its
      instant. */
  method SetDefaultProperties(g: MusicGraph)
    requires g.Valid() && RowReady(g)
    modifies g
    ensures g.Valid() && g.top == old(g.top)
    ensures g.Nodes() == Defaults(old(g.Nodes()), old(g.MeshTables()), old(RowOf(g)))
    ensures MeshGrown(old(g.Nodes()), old(g.MeshTables()), g.Nodes(), g.MeshTables())
  {
    ghost var n0, m0, row := g.Nodes(), g.MeshTables(), RowOf(g);
    ghost var tops, tokens := Tops(n0, m0, row), Tokens(n0, row);
    ghost var chosen := Chosen(tokens);
    WalkRow(g, n0, m0, row, tops, tokens, chosen);
    assert tops[..|row|] == tops && chosen[..|row|] == chosen;
  }

  /** The loop of SetDefaultProperties, over the row as it was. */
  method WalkRow(g: MusicGraph, ghost n0: NodeTables, ghost m0: MeshLinks, ghost row: seq<Handle>,
                 ghost tops: seq<Option<Handle>>, ghost tokens: seq<Option<NodeKind>>, ghost chosen: seq<Option<seq<Concept>>>)
    requires g.Valid() && RowFacts(n0, m0, row)
    requires g.top.Some? ==> Ends(m0.across, g.top.value) && row == Chain(m0.across, g.top.value)
    requires g.top.None? ==> row == []
    requires tops == Tops(n0, m0, row) && tokens == Tokens(n0, row) && chosen == Chosen(tokens)
    requires g.Nodes() == n0 && g.MeshTables() == m0
    modifies g
    ensures g.Valid() && g.top == old(g.top)
    ensures g.Nodes() == Walked(n0, tops[..|row|], chosen[..|row|])
    ensures MeshGrown(n0, m0, g.Nodes(), g.MeshTables())
  {
    assert tops[..0] == [] && chosen[..0] == [];
    assert Unlinked(m0, 0) == m0;
    var n := g.top;
    var s := Scan(true, false, false, false);
    ghost var i := 0;
    while n.Some?
      invariant g.Valid() && g.top == old(g.top) && i <= |row|
      invariant n == if i < |row| then Some(row[i]) else None
      invariant s == Flags(Present(tokens[..i]))
      invariant g.Nodes() == Walked(n0, tops[..i], chosen[..i])
      invariant MeshGrown(n0, m0, g.Nodes(), g.MeshTables())
      decreases |row| - i
    {
      RowEntry(n0, m0, row, tops, tokens, chosen, i);
      FlagsStep(tokens, i);
      WalkedStep(n0, tops, chosen, i, row[i]);
      ghost var c;
      s, c := Visit(g, s, n.value, n0, m0, tops[i], tokens[i]);
      ChainNext(m0.across, g.top.value, i);
      n := g.across[n.value];
      i := i + 1;
    }
  }

  /** One island of the row: skipped when it has no token, otherwise given
      the concepts Choose picks from the flags s. top is the top part the
      island raises to and tok the token it leads to, both as they were
      before the walk. */
  method Visit(g: MusicGraph, s: Scan, h: Handle, ghost n0: NodeTables, ghost m0: MeshLinks,
               ghost top: Option<Handle>, ghost tok: Option<NodeKind>) returns (s': Scan, ghost c: Option<seq<Concept>>)
    requires g.Valid() && InRange(n0) && Visitable(n0, m0, h) && |m0.downFrom| == |n0.kinds|
    requires top == TopOf(n0, m0, h)
    requires MeshGrown(n0, m0, g.Nodes(), g.MeshTables())
    requires g.kinds[h] == n0.kinds[h] && TokenOf(g.Nodes(), h) == tok
    modifies g
    ensures g.Valid() && g.top == old(g.top)
    ensures c == if tok.Some? then Some(Choose(s, tok.value).1) else None
    ensures s' == if tok.Some? then Choose(s, tok.value).0 else s
    ensures g.Nodes() == if top.Some? && c.Some? then Attached(Cleared(old(g.Nodes()), top.value), top.value, c.value)
                         else old(g.Nodes())
    ensures MeshGrown(n0, m0, g.Nodes(), g.MeshTables())
  {
    ghost var n1, m1 := g.Nodes(), g.MeshTables();
    var m := TokenOf(g.Nodes(), h);
    s', c := s, None;
    if m.Some? {
      var next := Choose(s, m.value);
      if g.kinds[h].Island? {
        ChainExtended(m0.downFrom, Filled(None, |n1.kinds| - |n0.kinds|), h);
      }
      ghost var t := SetProperties(g, next.1, Some(h));
      if t.Some? {
        MeshGrownStep(n0, m0, n1, m1, t.value, next.1);
      }
      s', c := next.0, Some(next.1);
    }
  }

  /** Island i of the row as it was before the walk: its top part, its
      token and its choice. */
  lemma RowEntry(n0: NodeTables, m0: MeshLinks, row: seq<Handle>, tops: seq<Option<Handle>>,
                 tokens: seq<Option<NodeKind>>, chosen: seq<Option<seq<Concept>>>, i: nat)
    requires RowFacts(n0, m0, row) && i < |row|
    requires tops == Tops(n0, m0, row) && tokens == Tokens(n0, row) && chosen == Chosen(tokens)
    ensures Visitable(n0, m0, row[i]) && tops[i] == TopOf(n0, m0, row[i])
    ensures tokens[i] == TokenOf(n0, row[i])
    ensures chosen[i] == if tokens[i].Some? then Some(Choose(Flags(Present(tokens[..i])), tokens[i].value).1) else None
  {
  }

  /** Visiting island i moves the tables on by its choice, and the walk so
      far kept its kind and its token. */
  lemma WalkedStep(n0: NodeTables, tops: seq<Option<Handle>>, chosen: seq<Option<seq<Concept>>>, i: nat, h: Handle)
    requires InRange(n0) && |tops| == |chosen| && i < |tops|
    requires forall j :: 0 <= j < |tops| && tops[j].Some? ==> tops[j].value < |n0.kinds|
    requires h < |n0.kinds| && !n0.kinds[h].Property?
    ensures var w := Walked(n0, tops[..i], chosen[..i]);
      && w.kinds[h] == n0.kinds[h] && TokenOf(w, h) == TokenOf(n0, h)
      && Walked(n0, tops[..i + 1], chosen[..i + 1]) ==
           if tops[i].Some? && chosen[i].Some? then Attached(Cleared(w, tops[i].value), tops[i].value, chosen[i].value)
           else w
  {
    WalkedKept(n0, tops[..i], chosen[..i], h);
    WalkedPrefix(n0, tops, chosen, i);
  }

  lemma WalkedPrefix(n0: NodeTables, tops: seq<Option<Handle>>, chosen: seq<Option<seq<Concept>>>, i: nat)
    requires InRange(n0) && |tops| == |chosen| && i < |tops|
    requires forall j :: 0 <= j < |tops| && tops[j].Some? ==> tops[j].value < |n0.kinds|
    ensures var w := Walked(n0, tops[..i], chosen[..i]);
      Walked(n0, tops[..i + 1], chosen[..i + 1]) ==
        if tops[i].Some? && chosen[i].Some? then Attached(Cleared(w, tops[i].value), tops[i].value, chosen[i].value)
        else w
  {
    assert tops[..i + 1][..i] == tops[..i] && chosen[..i + 1][..i] == chosen[..i];
  }

  /** Where property nodes are unshared and the islands of the row are
      distinct top parts (nothing lies above them), SetDefaultProperties
      leaves each island of the row with the concepts the default policy
      picks for its token, and an island without a token as it was. */
  lemma DefaultsAtRow(n0: NodeTables, m0: MeshLinks, row: seq<Handle>, j: nat)
    requires RowFacts(n0, m0, row) && Owned(n0) && j < |row| && n0.kinds[row[j]].Island?
    requires forall a, b :: 0 <= a < b < |row| ==> row[a] != row[b]
    requires forall k :: 0 <= k < |row| ==> m0.downFrom[row[k]].None?
    ensures var tokens := Tokens(n0, row);
      var ps := Present(tokens[..j]);
      PropertiesOf(Defaults(n0, m0, row), row[j]) ==
        if tokens[j].None? then PropertiesOf(n0, row[j])
        else if Opening(ps + [tokens[j].value]) then [RepeatingInstant]
        else if !Opening(ps) && tokens[j].value.BarlineToken? then [OptionalBreak]
        else []
  {
    var tops, tokens := Tops(n0, m0, row), Tokens(n0, row);
    var chosen := Chosen(tokens);
    forall k | 0 <= k < |row|
      ensures tops[k] == if n0.kinds[row[k]].Island? then Some(row[k]) else None
    {
      assert Visitable(n0, m0, row[k]);
      ChainEnd(m0.downFrom, row[k]);
    }
    WalkedProperties(n0, tops, chosen, row[j]);
    LastChoiceOwn(tops, chosen, j);
    if tokens[j].Some? {
      ChosenMeaning(tokens, j);
    }
  }

  // ClearProperties over the whole graph.

  /** The tables ClearProperties(g) leaves behind: the walk over the row
      with nothing chosen for any island, so that each top part met only
      loses its properties. */
  ghost function Blanked(n0: NodeTables, m0: MeshLinks, row: seq<Handle>): (r: NodeTables)
    requires RowFacts(n0, m0, row)
  {
    Walked(n0, Tops(n0, m0, row), Filled(Some([]), |row|))
  }

  /** Walks the top row clearing the properties of each instant met. */
  method ClearAllProperties(g: MusicGraph)
    requires g.Valid() && RowReady(g)
    modifies g
    ensures g.Valid() && g.top == old(g.top) && g.MeshTables() == old(g.MeshTables())
    ensures g.Nodes() == Blanked(old(g.Nodes()), old(g.MeshTables()), old(RowOf(g)))
  {
    ghost var n0, m0, row := g.Nodes(), g.MeshTables(), RowOf(g);
    ghost var tops, blank := Tops(n0, m0, row), Filled<Option<seq<Concept>>>(Some([]), |row|);
    ClearRow(g, n0, m0, row, tops);
    assert tops[..|row|] == tops && blank[..|row|] == blank;
  }

  /** The loop of ClearAllProperties, over the row as it was. */
  method ClearRow(g: MusicGraph, ghost n0: NodeTables, ghost m0: MeshLinks, ghost row: seq<Handle>,
                  ghost tops: seq<Option<Handle>>)
    requires g.Valid() && RowFacts(n0, m0, row)
    requires g.top.Some? ==> Ends(m0.across, g.top.value) && row == Chain(m0.across, g.top.value)
    requires g.top.None? ==> row == []
    requires tops == Tops(n0, m0, row)
    requires g.Nodes() == n0 && g.MeshTables() == m0
    modifies g
    ensures g.Valid() && g.top == old(g.top) && g.MeshTables() == m0
    ensures g.Nodes() == Walked(n0, tops[..|row|], Filled(Some([]), |row|)[..|row|])
  {
    ghost var blank := Filled<Option<seq<Concept>>>(Some([]), |row|);
    assert tops[..0] == [] && blank[..0] == [];
    var n := g.top;
    ghost var i := 0;
    while n.Some?
      invariant g.Valid() && g.top == old(g.top) && i <= |row|
      invariant n == if i < |row| then Some(row[i]) else None
      invariant g.Nodes() == Walked(n0, tops[..i], blank[..i]) && g.MeshTables() == m0
      decreases |row| - i
    {
      RowTop(n0, m0, row, tops, i);
      WalkedStep(n0, tops, blank, i, row[i]);
      ClearOne(g, n.value, n0, m0, tops[i]);
      ChainNext(m0.across, g.top.value, i);
      n := g.across[n.value];
      i := i + 1;
    }
  }

  /** One island of the row: the properties of its instant are cleared. */
  method ClearOne(g: MusicGraph, h: Handle, ghost n0: NodeTables, ghost m0: MeshLinks, ghost top: Option<Handle>)
    requires g.Valid() && InRange(n0) && Visitable(n0, m0, h) && |m0.downFrom| == |n0.kinds|
    requires top == TopOf(n0, m0, h) && g.MeshTables() == m0 && g.kinds[h] == n0.kinds[h]
    modifies g
    ensures g.Valid() && g.top == old(g.top) && g.MeshTables() == m0
    ensures g.Nodes() == if top.Some? then Attached(Cleared(old(g.Nodes()), top.value), top.value, []) else old(g.Nodes())
  {
    ghost var w := g.Nodes();
    ghost var t := ClearProperties(g, Some(h));
    if t.Some? {
      AttachedNone(Cleared(w, t.value), t.value);
    }
  }

  lemma RowTop(n0: NodeTables, m0: MeshLinks, row: seq<Handle>, tops: seq<Option<Handle>>, i: nat)
    requires RowFacts(n0, m0, row) && i < |row| && tops == Tops(n0, m0, row)
    ensures Visitable(n0, m0, row[i]) && tops[i] == TopOf(n0, m0, row[i])
  {
  }

  /** Where property nodes are unshared, ClearProperties(g) leaves every
      top part of the row without properties. */
  lemma BlankedEmpty(n0: NodeTables, m0: MeshLinks, row: seq<Handle>, j: nat)
    requires RowFacts(n0, m0, row) && Owned(n0) && j < |row|
    requires var t := TopOf(n0, m0, row[j]); t.Some? && !n0.kinds[t.value].Property?
    ensures PropertiesOf(Blanked(n0, m0, row), TopOf(n0, m0, row[j]).value) == []
  {
    var tops := Tops(n0, m0, row);
    var blank := Filled<Option<seq<Concept>>>(Some([]), |row|);
    WalkedProperties(n0, tops, blank, tops[j].value);
    LastChoiceBlank(tops, j);
  }

  lemma {:induction false} LastChoiceBlank(tops: seq<Option<Handle>>, j: nat)
    requires j < |tops| && tops[j].Some?
    ensures LastChoice(tops, Filled(Some([]), |tops|), tops[j].value) == Some([])
    decreases |tops|
  {
    var k := |tops| - 1;
    if tops[k] != tops[j] {
      assert j < k && tops[..k][j] == tops[j];
      assert Filled(Some([]), |tops|)[..k] == Filled<Option<seq<Concept>>>(Some([]), k);
      LastChoiceBlank(tops[..k], j);
    }
  }
}
