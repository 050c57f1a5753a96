/** Tablature for one chord: Tab::Import assigns each note of a chord token
    to a string of the active stringed instrument (first the string the
    note asks for, then the first free string that can play it), the
    TabNote ordering, and TabNoteList::RemoveDuplicateNotes. */
module Tablature {
  import opened Wrappers
  import opened Utility
  import opened Instruments
  import opened Seqs

  /** A note linked from the chord as Import reads it: its node, whether it
      is a rest, the string it asks for, and its note number (what
      GetNoteNumberForNoteName makes of GetNoteName for the active clef and
      key; GetNoteName is not part of this model). */
  datatype NoteInput = NoteInput(node: nat, isRest: bool, stringIndex: int, noteNumber: int)

  /** A chord token: its node, its duration and its linked notes in link
      order. */
  datatype ChordInput = ChordInput(node: nat, duration: real, notes: seq<NoteInput>)

  /** Tab::TabNote. */
  datatype TabNote = TabNote(midiNote: Pitch, stringIndex: int, fret: int, lineSpace: int, originalNode: Option<nat>)

  // ---------------------------------------------------------------------
  // TabNote ordering
  // ---------------------------------------------------------------------

  /** TabNote::operator<, lexicographic on (LineSpace, Fret). */
  predicate Less(a: TabNote, b: TabNote) {
    a.lineSpace < b.lineSpace || (a.lineSpace == b.lineSpace && a.fret < b.fret)
  }

  /** TabNote::operator>. */
  predicate Greater(a: TabNote, b: TabNote) {
    a.lineSpace > b.lineSpace || (a.lineSpace == b.lineSpace && a.fret > b.fret)
  }

  /** TabNote::operator==: same line/space and fret, whatever the rest. */
  predicate Same(a: TabNote, b: TabNote) {
    a.lineSpace == b.lineSpace && a.fret == b.fret
  }

  /** TabNote::operator<=. */
  predicate LessEq(a: TabNote, b: TabNote) {
    Less(a, b) || Same(a, b)
  }

  /** TabNote::operator>=. */
  predicate GreaterEq(a: TabNote, b: TabNote) {
    Greater(a, b) || Same(a, b)
  }

  /** The operators agree with the lexicographic order on (LineSpace,
      Fret): exactly one of <, ==, > holds, > is < reversed, <= is the
      negation of >, and < and == are transitive. */
  lemma TabNoteOrder(a: TabNote, b: TabNote, c: TabNote)
    ensures (if Less(a, b) then 1 else 0) + (if Same(a, b) then 1 else 0) + (if Greater(a, b) then 1 else 0) == 1
    ensures Greater(a, b) <==> Less(b, a)
    ensures LessEq(a, b) <==> !Greater(a, b)
    ensures GreaterEq(a, b) <==> !Less(a, b)
    ensures Less(a, b) && Less(b, c) ==> Less(a, c)
    ensures Same(a, b) && Same(b, c) ==> Same(a, c)
    ensures Less(a, b) <==>
      ((a.lineSpace, a.fret) != (b.lineSpace, b.fret)
       && (a.lineSpace < b.lineSpace || (a.lineSpace == b.lineSpace && a.fret <= b.fret)))
  {
  }

  predicate Sorted(s: seq<TabNote>) {
    forall i, j :: 0 <= i < j < |s| ==> LessEq(s[i], s[j])
  }

  // ---------------------------------------------------------------------
  // RemoveDuplicateNotes
  // ---------------------------------------------------------------------

  /** The entries from index j on that are not equal to the entry before
      them. */
  function KeptFrom(s: seq<TabNote>, j: nat): seq<TabNote>
    requires 1 <= j
    decreases |s| - j
  {
    if j >= |s| then []
    else (if Same(s[j - 1], s[j]) then [] else [s[j]]) + KeptFrom(s, j + 1)
  }

  /** A list with every run of equal neighbours reduced to its first entry:
      what RemoveDuplicateNotes leaves. */
  function Dedup(s: seq<TabNote>): seq<TabNote> {
    if s == [] then [] else [s[0]] + KeptFrom(s, 1)
  }

  predicate NoAdjacentSame(s: seq<TabNote>) {
    forall k :: 0 <= k < |s| - 1 ==> !Same(s[k], s[k + 1])
  }

  /** KeptFrom(s, j) starts with an entry that is not equal to s[j - 1]'s
      run, has no equal neighbours, and every entry of s from j on is
      equal to s[j - 1] or to some kept entry. */
  lemma KeptFromShape(s: seq<TabNote>, j: nat)
    requires 1 <= j
    ensures KeptFrom(s, j) != [] ==> !Same(s[j - 1], KeptFrom(s, j)[0])
    ensures NoAdjacentSame(KeptFrom(s, j))
    ensures forall x :: x in KeptFrom(s, j) ==> x in s[j..]
    ensures forall k :: j <= k < |s| ==> Same(s[k], s[j - 1]) || exists y :: y in KeptFrom(s, j) && Same(s[k], y)
  {
    KeptFromNoAdjacent(s, j);
    KeptFromMembers(s, j);
    KeptFromCovers(s, j);
  }

  lemma {:induction false} KeptFromNoAdjacent(s: seq<TabNote>, j: nat)
    requires 1 <= j
    ensures KeptFrom(s, j) != [] ==> !Same(s[j - 1], KeptFrom(s, j)[0])
    ensures NoAdjacentSame(KeptFrom(s, j))
    decreases |s| - j
  {
    if j < |s| {
      KeptFromNoAdjacent(s, j + 1);
      var rest := KeptFrom(s, j + 1);
      if !Same(s[j - 1], s[j]) {
        assert KeptFrom(s, j) == [s[j]] + rest;
        forall k | 0 <= k < |KeptFrom(s, j)| - 1 ensures !Same(KeptFrom(s, j)[k], KeptFrom(s, j)[k + 1]) {
          if k > 0 {
            assert KeptFrom(s, j)[k] == rest[k - 1];
          }
        }
      } else {
        assert KeptFrom(s, j) == rest;
      }
    }
  }

  lemma {:induction false} KeptFromMembers(s: seq<TabNote>, j: nat)
    requires 1 <= j
    ensures forall x :: x in KeptFrom(s, j) ==> x in s[j..]
    decreases |s| - j
  {
    if j < |s| {
      KeptFromMembers(s, j + 1);
      var rest := KeptFrom(s, j + 1);
      assert KeptFrom(s, j) == (if Same(s[j - 1], s[j]) then [] else [s[j]]) + rest;
      forall x | x in KeptFrom(s, j) ensures x in s[j..] {
        if x in rest {
          assert s[j + 1..] == s[j..][1..];
        }
      }
    }
  }

  lemma {:induction false} KeptFromCovers(s: seq<TabNote>, j: nat)
    requires 1 <= j
    ensures forall k :: j <= k < |s| ==> Same(s[k], s[j - 1]) || exists y :: y in KeptFrom(s, j) && Same(s[k], y)
    decreases |s| - j
  {
    if j < |s| {
      KeptFromCovers(s, j + 1);
      var rest := KeptFrom(s, j + 1);
      if !Same(s[j - 1], s[j]) {
        assert KeptFrom(s, j) == [s[j]] + rest;
        forall k | j <= k < |s| ensures Same(s[k], s[j - 1]) || exists y :: y in KeptFrom(s, j) && Same(s[k], y) {
          if k == j || Same(s[k], s[j]) {
            assert s[j] in KeptFrom(s, j);
          } else {
            var y :| y in rest && Same(s[k], y);
            assert y in KeptFrom(s, j);
          }
        }
      } else {
        assert KeptFrom(s, j) == rest;
        forall k | j <= k < |s| ensures Same(s[k], s[j - 1]) || exists y :: y in KeptFrom(s, j) && Same(s[k], y) {
          if k > j && !Same(s[k], s[j]) {
            var y :| y in rest && Same(s[k], y);
          }
        }
      }
    }
  }

  /** RemoveDuplicateNotes leaves no two neighbours equal, keeps only
      entries of the list, and drops only entries equal to one it keeps; on
      a sorted list no two of the kept entries are equal at all. */
  lemma DedupProperties(s: seq<TabNote>)
    ensures NoAdjacentSame(Dedup(s))
    ensures forall x :: x in Dedup(s) ==> x in s
    ensures forall x :: x in s ==> exists y :: y in Dedup(s) && Same(x, y)
    ensures Sorted(s) ==> forall i, j :: 0 <= i < j < |Dedup(s)| ==> !Same(Dedup(s)[i], Dedup(s)[j])
  {
    if s != [] {
      KeptFromShape(s, 1);
      var d := Dedup(s);
      forall k | 0 <= k < |d| - 1 ensures !Same(d[k], d[k + 1]) {
        if k > 0 {
          assert d[k] == KeptFrom(s, 1)[k - 1];
        }
      }
      forall x | x in s ensures exists y :: y in d && Same(x, y) {
        var k :| 0 <= k < |s| && s[k] == x;
        if k == 0 || Same(s[k], s[0]) {
          assert s[0] in d;
        } else {
          var y :| y in KeptFrom(s, 1) && Same(s[k], y);
          assert y in d;
        }
      }
      if Sorted(s) {
        DedupSortedStrict(s);
      }
    }
  }

  /** On a sorted list the kept entries strictly increase. */
  lemma DedupSortedStrict(s: seq<TabNote>)
    requires Sorted(s) && s != []
    ensures forall i, j :: 0 <= i < j < |Dedup(s)| ==> !Same(Dedup(s)[i], Dedup(s)[j])
  {
    var d := Dedup(s);
    DedupIsSubsequence(s);
    SortedSubsequence(d, s);
    KeptFromShape(s, 1);
    forall i, j | 0 <= i < j < |d| ensures !Same(d[i], d[j]) {
      if i > 0 {
        assert d[i] == KeptFrom(s, 1)[i - 1] && d[i + 1] == KeptFrom(s, 1)[i];
      }
      assert LessEq(d[i], d[i + 1]) && !Same(d[i], d[i + 1]);
      assert LessEq(d[i + 1], d[j]) || i + 1 == j;
    }
  }

  /** A subsequence of a sorted list is sorted. */
  lemma {:induction false} SortedSubsequence(d: seq<TabNote>, s: seq<TabNote>)
    requires Sorted(s) && IsSubsequenceOf(d, s)
    ensures Sorted(d)
    decreases |s|
  {
    if d != [] {
      assert Sorted(s[1..]) by {
        forall i, j | 0 <= i < j < |s[1..]| ensures LessEq(s[1..][i], s[1..][j]) {
          assert s[1..][i] == s[i + 1] && s[1..][j] == s[j + 1];
        }
      }
      if d[0] == s[0] {
        SortedSubsequence(d[1..], s[1..]);
        SubsequenceMembers(d[1..], s[1..]);
        forall i, j | 0 <= i < j < |d| ensures LessEq(d[i], d[j]) {
          if i == 0 {
            assert d[j] == d[1..][j - 1] && d[j] in s[1..];
            var k :| 0 <= k < |s[1..]| && s[1..][k] == d[j];
            assert s[k + 1] == d[j];
          } else {
            assert d[i] == d[1..][i - 1] && d[j] == d[1..][j - 1];
          }
        }
      } else {
        SortedSubsequence(d, s[1..]);
      }
    }
  }

  lemma {:induction false} KeptFromIsSubsequence(s: seq<TabNote>, j: nat)
    requires 1 <= j
    ensures IsSubsequenceOf(KeptFrom(s, j), if j <= |s| then s[j..] else [])
    decreases |s| - j
  {
    if j < |s| {
      KeptFromIsSubsequence(s, j + 1);
      var rest := KeptFrom(s, j + 1);
      assert s[j..] == [s[j]] + s[j + 1..];
      assert IsSubsequenceOf(rest, s[j + 1..]);
      if Same(s[j - 1], s[j]) {
        assert KeptFrom(s, j) == rest;
        SubsequenceCons(rest, s[j], s[j + 1..]);
      } else {
        assert KeptFrom(s, j) == [s[j]] + rest;
        assert KeptFrom(s, j)[1..] == rest;
      }
    }
  }

  /** RemoveDuplicateNotes keeps the relative order of what it keeps. */
  lemma DedupIsSubsequence(s: seq<TabNote>)
    ensures IsSubsequenceOf(Dedup(s), s)
  {
    if s != [] {
      KeptFromIsSubsequence(s, 1);
      assert Dedup(s)[1..] == KeptFrom(s, 1);
    }
  }

  // ---------------------------------------------------------------------
  // Import, as functions of the state before it
  // ---------------------------------------------------------------------

  /** The lists Import fills. */
  datatype Placement = Placement(tabNotes: seq<TabNote>, used: seq<int>, wrong: seq<NoteInput>, isRest: bool)

  /** The line/space of a string as a whole number: the source assigns the
      floating-point result to an integer field, and the value is whole. */
  function LineSpaceOf(stringIndex: int, numStrings: int): int {
    GetLineSpaceForTabbedNote(stringIndex, numStrings).Floor
  }

  /** The pitch of a note's number, by the corrected note-number table
      (the engine's own table reads note number 110 as MIDI value 100). */
  function MidiOf(n: NoteInput): Pitch {
    GetMIDIValueForNoteNumber(n.noteNumber)
  }

  /** The tab note placing `note` on string s. */
  function Placed(strings: seq<InstrumentString>, numStrings: int, note: NoteInput, s: int): TabNote {
    TabNote(MidiOf(note), s, PositionOnString(strings, s, MidiOf(note)), LineSpaceOf(s, numStrings), Some(note.node))
  }

  /** The single entry a rest leaves: a default TabNote on the middle line
      or space. */
  function RestNote(numStrings: int, note: NoteInput): TabNote {
    TabNote(Undefined, 0, 0, if IsOdd(numStrings) then 0 else 1, Some(note.node))
  }

  /** One note of the first pass: placed on its requested string when that
      string is unused and plays it, otherwise a wrong note. */
  function Place(strings: seq<InstrumentString>, numStrings: int, p: Placement, note: NoteInput): Placement {
    var s := note.stringIndex;
    if s !in p.used && PositionOnString(strings, s, MidiOf(note)) >= 0 then
      p.(tabNotes := p.tabNotes + [Placed(strings, numStrings, note, s)], used := p.used + [s])
    else
      p.(wrong := p.wrong + [note])
  }

  /** The first pass over the chord's notes; a rest ends it, leaving only
      the rest entry. */
  function PrimaryPass(strings: seq<InstrumentString>, numStrings: int, p: Placement, notes: seq<NoteInput>): Placement
    decreases |notes|
  {
    if notes == [] then p
    else if notes[0].isRest then Placement([RestNote(numStrings, notes[0])], p.used, [], true)
    else PrimaryPass(strings, numStrings, Place(strings, numStrings, p, notes[0]), notes[1..])
  }

  /** The lowest-numbered string from s on that plays the note and is not
      used. */
  function FirstFreeFrom(strings: seq<InstrumentString>, note: Pitch, used: seq<int>, s: nat): (r: Option<int>)
    ensures r.Some? ==> s <= r.value < |strings| && Plays(strings, r.value, note) && r.value !in used
    decreases |strings| - s
  {
    if s >= |strings| then None
    else if Plays(strings, s, note) && s !in used then Some(s)
    else FirstFreeFrom(strings, note, used, s + 1)
  }

  /** The second pass's state: tab notes, used strings and fixed notes. */
  datatype Fallback = Fallback(tabNotes: seq<TabNote>, used: seq<int>, fixed: seq<NoteInput>)

  /** One wrong note of the second pass: it takes the first free string in
      GetStringsAvailableForNote's order, if there is one. */
  function FallbackStep(strings: seq<InstrumentString>, numStrings: int, f: Fallback, w: NoteInput): Fallback {
    match FirstFreeFrom(strings, MidiOf(w), f.used, 0)
    case None => f
    case Some(s) =>
      Fallback(f.tabNotes + [Placed(strings, numStrings, w, s)], f.used + [s], f.fixed + [w])
  }

  function FallbackPass(strings: seq<InstrumentString>, numStrings: int, f: Fallback, wrongs: seq<NoteInput>): Fallback
    decreases |wrongs|
  {
    if wrongs == [] then f
    else FallbackPass(strings, numStrings, FallbackStep(strings, numStrings, f, wrongs[0]), wrongs[1..])
  }

  /** prim::List::Remove of the first entry that is the given note node. */
  function RemoveFirst(w: seq<NoteInput>, node: nat): seq<NoteInput> {
    if w == [] then []
    else if w[0].node == node then w[1..]
    else [w[0]] + RemoveFirst(w[1..], node)
  }

  /** The wrong notes once each fixed note has been removed once. */
  function RemoveFixed(w: seq<NoteInput>, fixed: seq<NoteInput>): seq<NoteInput>
    decreases |fixed|
  {
    if fixed == [] then w else RemoveFixed(RemoveFirst(w, fixed[0].node), fixed[1..])
  }

  // ---------------------------------------------------------------------
  // What Import guarantees
  // ---------------------------------------------------------------------

  predicate Distinct(s: seq<int>) {
    forall i, j :: 0 <= i < j < |s| ==> s[i] != s[j]
  }

  /** A tab note sits where its pitch is: a defined pitch, the fret the
      string gives for it, and the string's line/space. */
  predicate WellPlaced(strings: seq<InstrumentString>, numStrings: int, t: TabNote) {
    t.midiNote.MIDIValue? && t.fret == PositionOnString(strings, t.stringIndex, t.midiNote) && t.fret >= 0
    && t.lineSpace == LineSpaceOf(t.stringIndex, numStrings)
  }

  /** The tab notes and the used strings go hand in hand, no string is used
      twice, and every tab note is well placed. */
  predicate Consistent(strings: seq<InstrumentString>, numStrings: int, tabNotes: seq<TabNote>, used: seq<int>) {
    |tabNotes| == |used| && (forall i :: 0 <= i < |used| ==> tabNotes[i].stringIndex == used[i])
    && Distinct(used) && forall t :: t in tabNotes ==> WellPlaced(strings, numStrings, t)
  }

  lemma PlaceConsistent(strings: seq<InstrumentString>, numStrings: int, p: Placement, note: NoteInput)
    requires Consistent(strings, numStrings, p.tabNotes, p.used)
    ensures var q := Place(strings, numStrings, p, note);
      Consistent(strings, numStrings, q.tabNotes, q.used) && !q.isRest == !p.isRest
      && |q.tabNotes| + |q.wrong| == |p.tabNotes| + |p.wrong| + 1
  {
    var q := Place(strings, numStrings, p, note);
    if q.tabNotes != p.tabNotes {
      assert q.used == p.used + [note.stringIndex];
      assert forall i :: 0 <= i < |p.used| ==> q.used[i] == p.used[i];
    }
  }

  /** From a consistent state and a chord without rests, the first pass
      keeps the state consistent, and every note ends up as a tab note or a
      wrong note. */
  lemma {:induction false} PrimaryConsistent(strings: seq<InstrumentString>, numStrings: int, p: Placement, notes: seq<NoteInput>)
    requires Consistent(strings, numStrings, p.tabNotes, p.used)
    requires forall n :: n in notes ==> !n.isRest
    ensures var q := PrimaryPass(strings, numStrings, p, notes);
      Consistent(strings, numStrings, q.tabNotes, q.used) && q.isRest == p.isRest
      && |q.tabNotes| + |q.wrong| == |p.tabNotes| + |p.wrong| + |notes|
    ensures forall w :: w in PrimaryPass(strings, numStrings, p, notes).wrong ==> w in p.wrong || w in notes
    decreases |notes|
  {
    if notes != [] {
      PlaceConsistent(strings, numStrings, p, notes[0]);
      var p' := Place(strings, numStrings, p, notes[0]);
      assert forall n :: n in notes[1..] ==> n in notes;
      PrimaryConsistent(strings, numStrings, p', notes[1..]);
    }
  }

  lemma FallbackStepConsistent(strings: seq<InstrumentString>, numStrings: int, f: Fallback, w: NoteInput)
    requires Consistent(strings, numStrings, f.tabNotes, f.used)
    ensures var g := FallbackStep(strings, numStrings, f, w);
      Consistent(strings, numStrings, g.tabNotes, g.used)
      && |g.tabNotes| - |f.tabNotes| == |g.fixed| - |f.fixed| <= 1
      && (g.fixed == f.fixed || g.fixed == f.fixed + [w])
  {
    match FirstFreeFrom(strings, MidiOf(w), f.used, 0)
    case None =>
    case Some(s) =>
      var g := FallbackStep(strings, numStrings, f, w);
      assert forall i :: 0 <= i < |f.used| ==> g.used[i] == f.used[i];
  }

  /** The second pass keeps the state consistent, and adds one tab note per
      fixed note; the fixed notes are wrong notes, in order. */
  lemma {:induction false} FallbackConsistent(strings: seq<InstrumentString>, numStrings: int, f: Fallback, wrongs: seq<NoteInput>)
    requires Consistent(strings, numStrings, f.tabNotes, f.used)
    ensures var g := FallbackPass(strings, numStrings, f, wrongs);
      Consistent(strings, numStrings, g.tabNotes, g.used)
      && |g.tabNotes| - |f.tabNotes| == |g.fixed| - |f.fixed|
      && |f.fixed| <= |g.fixed| && g.fixed[..|f.fixed|] == f.fixed
      && IsSubsequenceOf(g.fixed[|f.fixed|..], wrongs)
    decreases |wrongs|
  {
    if wrongs == [] {
      assert FallbackPass(strings, numStrings, f, wrongs).fixed[|f.fixed|..] == [];
    } else {
      FallbackStepConsistent(strings, numStrings, f, wrongs[0]);
      var f' := FallbackStep(strings, numStrings, f, wrongs[0]);
      FallbackConsistent(strings, numStrings, f', wrongs[1..]);
      var g := FallbackPass(strings, numStrings, f', wrongs[1..]);
      assert g.fixed[..|f.fixed|] == g.fixed[..|f'.fixed|][..|f.fixed|];
      if f'.fixed == f.fixed {
        SubsequenceCons(g.fixed[|f.fixed|..], wrongs[0], wrongs[1..]);
      } else {
        assert g.fixed[|f.fixed|..] == [wrongs[0]] + g.fixed[|f'.fixed|..];
      }
    }
  }

  /** Filter of the notes whose node is not among the given ones. */
  function Without(w: seq<NoteInput>, nodes: set<nat>): seq<NoteInput> {
    if w == [] then []
    else (if w[0].node in nodes then [] else [w[0]]) + Without(w[1..], nodes)
  }

  function Nodes(w: seq<NoteInput>): set<nat> {
    set n | n in w :: n.node
  }

  predicate DistinctNodes(w: seq<NoteInput>) {
    forall i, j :: 0 <= i < j < |w| ==> w[i].node != w[j].node
  }

  lemma DistinctTail(w: seq<NoteInput>)
    requires w != [] && DistinctNodes(w)
    ensures DistinctNodes(w[1..])
    ensures forall x :: x in w[1..] ==> x.node != w[0].node
  {
    forall i, j | 0 <= i < j < |w[1..]| ensures w[1..][i].node != w[1..][j].node {
      assert w[1..][i] == w[i + 1] && w[1..][j] == w[j + 1];
    }
    forall x | x in w[1..] ensures x.node != w[0].node {
      var k :| 0 <= k < |w[1..]| && w[1..][k] == x;
      assert w[k + 1] == x;
    }
  }

  /** Among distinct nodes, removing the first entry of a node from a
      filtered list is filtering that node out too. */
  lemma {:induction false} RemoveFirstIsWithout(w: seq<NoteInput>, node: nat, nodes: set<nat>)
    requires DistinctNodes(w)
    ensures RemoveFirst(Without(w, nodes), node) == Without(w, nodes + {node})
    decreases |w|
  {
    if w != [] {
      DistinctTail(w);
      RemoveFirstIsWithout(w[1..], node, nodes);
      var rest, more := Without(w[1..], nodes), nodes + {node};
      if w[0].node in nodes {
        assert Without(w, nodes) == rest;
        assert Without(w, more) == Without(w[1..], more);
      } else if w[0].node == node {
        assert Without(w, nodes) == [w[0]] + rest;
        assert Without(w, more) == Without(w[1..], more);
        WithoutSameOutside(w[1..], nodes, node);
      } else {
        assert Without(w, nodes) == [w[0]] + rest;
        assert Without(w, more) == [w[0]] + Without(w[1..], more);
        assert ([w[0]] + rest)[0] == w[0] && ([w[0]] + rest)[1..] == rest;
      }
    }
  }

  /** Leaving out a node no entry has changes nothing. */
  lemma {:induction false} WithoutSameOutside(w: seq<NoteInput>, nodes: set<nat>, node: nat)
    requires forall x :: x in w ==> x.node != node
    ensures Without(w, nodes + {node}) == Without(w, nodes)
    decreases |w|
  {
    if w != [] {
      WithoutSameOutside(w[1..], nodes, node);
    }
  }

  /** When the wrong notes are distinct nodes, removing each fixed note
      once is filtering out the fixed notes: the order of what stays is
      kept. */
  lemma {:induction false} RemoveFixedIsFilter(w: seq<NoteInput>, fixed: seq<NoteInput>, nodes: set<nat>)
    requires DistinctNodes(w)
    ensures RemoveFixed(Without(w, nodes), fixed) == Without(w, nodes + Nodes(fixed))
    decreases |fixed|
  {
    if fixed == [] {
      assert Nodes(fixed) == {};
      assert nodes + Nodes(fixed) == nodes;
    } else {
      RemoveFirstIsWithout(w, fixed[0].node, nodes);
      RemoveFixedIsFilter(w, fixed[1..], nodes + {fixed[0].node});
      assert Nodes(fixed) == {fixed[0].node} + Nodes(fixed[1..]) by {
        assert fixed == [fixed[0]] + fixed[1..];
        forall x | x in Nodes(fixed) ensures x in {fixed[0].node} + Nodes(fixed[1..]) {
          var n :| n in fixed && n.node == x;
          if n != fixed[0] {
            assert n in fixed[1..];
          }
        }
      }
      assert nodes + {fixed[0].node} + Nodes(fixed[1..]) == nodes + Nodes(fixed);
    }
  }

  lemma {:induction false} WithoutNothing(w: seq<NoteInput>)
    ensures Without(w, {}) == w
    decreases |w|
  {
    if w != [] {
      WithoutNothing(w[1..]);
    }
  }

  lemma NodesCons(s: seq<NoteInput>)
    requires s != []
    ensures Nodes(s) == {s[0].node} + Nodes(s[1..])
  {
    forall x | x in Nodes(s) ensures x in {s[0].node} + Nodes(s[1..]) {
      var n :| n in s && n.node == x;
      if n != s[0] {
        assert n in s[1..];
      }
    }
  }

  /** Filtering out the nodes of a subsequence of distinct notes removes
      exactly that many notes. */
  lemma {:induction false} WithoutLength(w: seq<NoteInput>, s: seq<NoteInput>)
    requires DistinctNodes(w) && IsSubsequenceOf(s, w)
    ensures |Without(w, Nodes(s))| == |w| - |s|
    decreases |w|
  {
    if s == [] {
      assert Nodes(s) == {};
      WithoutNothing(w);
    } else {
      DistinctTail(w);
      NodesCons(s);
      if s[0] == w[0] {
        WithoutLength(w[1..], s[1..]);
        assert Without(w, Nodes(s)) == Without(w[1..], Nodes(s));
        assert Nodes(s) == Nodes(s[1..]) + {w[0].node};
        WithoutSameOutside(w[1..], Nodes(s[1..]), w[0].node);
      } else {
        WithoutLength(w[1..], s);
        SubsequenceMembers(s, w[1..]);
        assert w[0].node !in Nodes(s);
        assert Without(w, Nodes(s)) == [w[0]] + Without(w[1..], Nodes(s));
      }
    }
  }

  /** Import on a fresh Tab, for a chord with distinct note nodes and no
      rest: no string carries two tab notes, every tab note has the fret
      its string gives for its pitch and its string's line/space, the wrong
      notes left are exactly the first pass's wrong notes that the second
      pass did not fix, in their order, and every note of the chord ends up
      either as a tab note or as a wrong note. */
  lemma ImportGuarantees(strings: seq<InstrumentString>, numStrings: int, notes: seq<NoteInput>)
    requires DistinctNodes(notes)
    requires forall n :: n in notes ==> !n.isRest
    ensures var p := PrimaryPass(strings, numStrings, Placement([], [], [], false), notes);
      var f := FallbackPass(strings, numStrings, Fallback(p.tabNotes, p.used, []), p.wrong);
      var wrong := RemoveFixed(p.wrong, f.fixed);
      !p.isRest
      && Consistent(strings, numStrings, f.tabNotes, f.used)
      && (forall i, j :: 0 <= i < j < |f.tabNotes| ==> f.tabNotes[i].stringIndex != f.tabNotes[j].stringIndex)
      && (forall t :: t in f.tabNotes ==>
            0 <= t.fret <= strings[t.stringIndex].semitones
            && strings[t.stringIndex].midiNote + t.fret == t.midiNote.number)
      && wrong == Without(p.wrong, Nodes(f.fixed))
      && |f.tabNotes| + |wrong| == |notes|
  {
    var p0 := Placement([], [], [], false);
    PrimaryConsistent(strings, numStrings, p0, notes);
    var p := PrimaryPass(strings, numStrings, p0, notes);
    FallbackConsistent(strings, numStrings, Fallback(p.tabNotes, p.used, []), p.wrong);
    var f := FallbackPass(strings, numStrings, Fallback(p.tabNotes, p.used, []), p.wrong);
    PrimaryWrongIsSubsequence(strings, numStrings, p0, notes);
    SubsequenceDistinct(p.wrong, notes);
    RemoveFixedIsFilter(p.wrong, f.fixed, {});
    WithoutNothing(p.wrong);
    assert {} + Nodes(f.fixed) == Nodes(f.fixed);
    assert f.fixed[0..] == f.fixed;
    WithoutLength(p.wrong, f.fixed);
    forall t | t in f.tabNotes ensures 0 <= t.fret <= strings[t.stringIndex].semitones
      && strings[t.stringIndex].midiNote + t.fret == t.midiNote.number
    {
      assert WellPlaced(strings, numStrings, t);
    }
  }

  /** The first pass's wrong notes are the chord's notes it did not place,
      in chord order. */
  lemma {:induction false} PrimaryWrongIsSubsequence(strings: seq<InstrumentString>, numStrings: int, p: Placement, notes: seq<NoteInput>)
    requires forall n :: n in notes ==> !n.isRest
    ensures var q := PrimaryPass(strings, numStrings, p, notes);
      |p.wrong| <= |q.wrong| && q.wrong[..|p.wrong|] == p.wrong && IsSubsequenceOf(q.wrong[|p.wrong|..], notes)
    decreases |notes|
  {
    var q := PrimaryPass(strings, numStrings, p, notes);
    if notes == [] {
      assert q.wrong[|p.wrong|..] == [];
    } else {
      var p' := Place(strings, numStrings, p, notes[0]);
      assert forall n :: n in notes[1..] ==> n in notes;
      PrimaryWrongIsSubsequence(strings, numStrings, p', notes[1..]);
      assert q.wrong[..|p.wrong|] == q.wrong[..|p'.wrong|][..|p.wrong|];
      if p'.wrong == p.wrong {
        SubsequenceCons(q.wrong[|p.wrong|..], notes[0], notes[1..]);
        assert [notes[0]] + notes[1..] == notes;
      } else {
        assert q.wrong[|p.wrong|..] == [notes[0]] + q.wrong[|p'.wrong|..];
        assert [notes[0]] + notes[1..] == notes;
      }
    }
  }

  lemma {:induction false} SubsequenceDistinct(s: seq<NoteInput>, w: seq<NoteInput>)
    requires IsSubsequenceOf(s, w) && DistinctNodes(w)
    ensures DistinctNodes(s)
    decreases |w|
  {
    if s != [] && w != [] {
      assert DistinctNodes(w[1..]) by {
        forall i, j | 0 <= i < j < |w[1..]| ensures w[1..][i].node != w[1..][j].node {
          assert w[1..][i] == w[i + 1] && w[1..][j] == w[j + 1];
        }
      }
      if s[0] == w[0] {
        SubsequenceDistinct(s[1..], w[1..]);
        SubsequenceMembers(s[1..], w[1..]);
        forall i, j | 0 <= i < j < |s| ensures s[i].node != s[j].node {
          if i == 0 {
            assert s[j] == s[1..][j - 1] && s[j] in w[1..];
            var k :| 0 <= k < |w[1..]| && w[1..][k] == s[j];
            assert w[k + 1] == s[j];
          } else {
            assert s[i] == s[1..][i - 1] && s[j] == s[1..][j - 1];
          }
        }
      } else {
        SubsequenceDistinct(s, w[1..]);
      }
    }
  }

  /** A rest among the notes ends the first pass with only the rest entry,
      on the middle line (odd string count) or space (even), and no wrong
      notes. */
  lemma {:induction false} RestStopsImport(strings: seq<InstrumentString>, numStrings: int, p: Placement, notes: seq<NoteInput>, k: nat)
    requires k < |notes| && notes[k].isRest && forall i :: 0 <= i < k ==> !notes[i].isRest
    ensures var q := PrimaryPass(strings, numStrings, p, notes);
      q.isRest && q.wrong == [] && q.tabNotes == [RestNote(numStrings, notes[k])]
      && q.tabNotes[0].lineSpace == (if IsOdd(numStrings) then 0 else 1)
    decreases k
  {
    if k > 0 {
      RestStopsImport(strings, numStrings, Place(strings, numStrings, p, notes[0]), notes[1..], k - 1);
    }
  }

  // ---------------------------------------------------------------------
  // The Tab
  // ---------------------------------------------------------------------

  /** Tab: one chord converted to tablature. */
  class Tab {
    var numStrings: int
    var tabNotes: seq<TabNote>
    var usedStrings: seq<int>
    var wrongNotes: seq<NoteInput>
    var duration: real
    var isRest: bool
    var originalNode: Option<nat>

    /** Tab(): no strings, a quarter-note duration, not a rest. */
    constructor ()
      ensures numStrings == 0 && tabNotes == [] && usedStrings == [] && wrongNotes == []
      ensures duration == 0.25 && !isRest && originalNode == None
    {
      numStrings := 0;
      tabNotes := [];
      usedStrings := [];
      wrongNotes := [];
      duration := 0.25;
      isRest := false;
      originalNode := None;
    }

    /** Tab::Import: a non-chord changes nothing; a chord sets the duration
        and origin, and with an active instrument runs both passes and then
        removes the fixed notes from the wrong notes. */
    method Import(chord: Option<ChordInput>, instrument: StringedInstrument?)
      modifies this
      ensures chord.None? ==>
        numStrings == old(numStrings) && tabNotes == old(tabNotes)
        && usedStrings == old(usedStrings) && wrongNotes == old(wrongNotes) && duration == old(duration)
        && isRest == old(isRest) && originalNode == old(originalNode)
      ensures chord.Some? ==> duration == chord.value.duration && originalNode == Some(chord.value.node)
      ensures chord.Some? && instrument == null ==>
        numStrings == old(numStrings) && tabNotes == old(tabNotes)
        && usedStrings == old(usedStrings) && wrongNotes == old(wrongNotes) && isRest == old(isRest)
      ensures chord.Some? && instrument != null ==>
        var strings := instrument.strings;
        var p := PrimaryPass(strings, |strings|, Placement(old(tabNotes), old(usedStrings), old(wrongNotes), old(isRest)), chord.value.notes);
        var f := FallbackPass(strings, |strings|, Fallback(p.tabNotes, p.used, []), p.wrong);
        numStrings == |strings| && isRest == p.isRest && tabNotes == f.tabNotes && usedStrings == f.used
        && wrongNotes == RemoveFixed(p.wrong, f.fixed)
    {
      if chord.None? {
        return;
      }
      var c := chord.value;
      duration := c.duration;
      originalNode := Some(c.node);
      if instrument == null {
        return;
      }
      numStrings := |instrument.strings|;
      PlaceNotes(instrument, c.notes);
      var fixedNotes := PlaceWrongNotes(instrument);
      RemoveFixedNotes(fixedNotes);
    }

    /** The placement the fields hold. */
    function Placing(): Placement
      reads this
    {
      Placement(tabNotes, usedStrings, wrongNotes, isRest)
    }

    /** The first loop of Tab::Import: each note goes on its requested
        string when that string is unused and plays it, else among the wrong
        notes; a rest ends the loop, leaving only the rest entry. */
    method PlaceNotes(instrument: StringedInstrument, notes: seq<NoteInput>)
      requires numStrings == |instrument.strings|
      modifies this
      ensures Placing() == PrimaryPass(instrument.strings, numStrings, old(Placing()), notes)
      ensures numStrings == old(numStrings) && duration == old(duration) && originalNode == old(originalNode)
    {
      ghost var goal := PrimaryPass(instrument.strings, numStrings, Placing(), notes);
      var i := 0;
      while i < |notes|
        invariant 0 <= i <= |notes|
        invariant PrimaryPass(instrument.strings, numStrings, Placing(), notes[i..]) == goal
        invariant numStrings == old(numStrings) && duration == old(duration) && originalNode == old(originalNode)
      {
        var note := notes[i];
        if note.isRest {
          isRest := true;
          tabNotes := [RestNote(numStrings, note)];
          wrongNotes := [];
          break;
        }
        var midiNote := GetMIDIValueForNoteNumber(note.noteNumber);
        var stringIndex := note.stringIndex;
        var foundValidPosition := false;
        if stringIndex !in usedStrings {
          var fret := PositionOnString(instrument.strings, stringIndex, midiNote);
          if fret >= 0 {
            tabNotes := tabNotes + [TabNote(midiNote, stringIndex, fret, LineSpaceOf(stringIndex, numStrings), Some(note.node))];
            usedStrings := usedStrings + [stringIndex];
            foundValidPosition := true;
          }
        }
        if !foundValidPosition {
          wrongNotes := wrongNotes + [note];
        }
        assert notes[i..][1..] == notes[i + 1..];
        i := i + 1;
      }
    }

    /** The second loop of Tab::Import: each wrong note takes the first
        free string GetStringsAvailableForNote offers, if any, and is then
        a fixed note. */
    method PlaceWrongNotes(instrument: StringedInstrument) returns (fixedNotes: seq<NoteInput>)
      requires numStrings == |instrument.strings|
      modifies this
      ensures Fallback(tabNotes, usedStrings, fixedNotes)
        == FallbackPass(instrument.strings, numStrings, Fallback(old(tabNotes), old(usedStrings), []), old(wrongNotes))
      ensures numStrings == old(numStrings) && wrongNotes == old(wrongNotes) && isRest == old(isRest)
      ensures duration == old(duration) && originalNode == old(originalNode)
    {
      var strings := instrument.strings;
      fixedNotes := [];
      ghost var fallback := FallbackPass(strings, numStrings, Fallback(tabNotes, usedStrings, []), wrongNotes);
      var j := 0;
      while j < |wrongNotes|
        invariant 0 <= j <= |wrongNotes|
        invariant FallbackPass(strings, numStrings, Fallback(tabNotes, usedStrings, fixedNotes), wrongNotes[j..]) == fallback
        invariant numStrings == old(numStrings) && wrongNotes == old(wrongNotes) && isRest == old(isRest)
        invariant duration == old(duration) && originalNode == old(originalNode)
      {
        var w := wrongNotes[j];
        var midiNote := GetMIDIValueForNoteNumber(w.noteNumber);
        var availableStrings := instrument.GetStringsAvailableForNote(midiNote, true);
        var k := 0;
        while k < |availableStrings|
          invariant 0 <= k <= |availableStrings|
          invariant forall k' :: 0 <= k' < k ==> availableStrings[k'] in usedStrings
        {
          if availableStrings[k] !in usedStrings {
            break;
          }
          k := k + 1;
        }
        FirstFreeInAvailable(strings, midiNote, usedStrings, availableStrings, k);
        if k < |availableStrings| {
          var s := availableStrings[k];
          tabNotes := tabNotes + [TabNote(midiNote, s, PositionOnString(instrument.strings, s, midiNote),
            LineSpaceOf(s, numStrings), Some(w.node))];
          usedStrings := usedStrings + [s];
          fixedNotes := fixedNotes + [w];
        }
        assert wrongNotes[j..][1..] == wrongNotes[j + 1..];
        j := j + 1;
      }
    }

    /** The third loop of Tab::Import: each fixed note is removed once from
        the wrong notes. */
    method RemoveFixedNotes(fixedNotes: seq<NoteInput>)
      modifies this
      ensures wrongNotes == RemoveFixed(old(wrongNotes), fixedNotes)
      ensures numStrings == old(numStrings) && tabNotes == old(tabNotes) && usedStrings == old(usedStrings)
      ensures isRest == old(isRest) && duration == old(duration) && originalNode == old(originalNode)
    {
      var fi := 0;
      while fi < |fixedNotes|
        invariant 0 <= fi <= |fixedNotes|
        invariant RemoveFixed(wrongNotes, fixedNotes[fi..]) == RemoveFixed(old(wrongNotes), fixedNotes)
        invariant numStrings == old(numStrings) && tabNotes == old(tabNotes) && usedStrings == old(usedStrings)
        invariant isRest == old(isRest) && duration == old(duration) && originalNode == old(originalNode)
      {
        var target := fixedNotes[fi].node;
        var wi := 0;
        while wi < |wrongNotes|
          invariant 0 <= wi <= |wrongNotes|
          invariant forall k :: 0 <= k < wi ==> wrongNotes[k].node != target
        {
          if wrongNotes[wi].node == target {
            break;
          }
          wi := wi + 1;
        }
        RemoveFirstAt(wrongNotes, target, wi);
        if wi < |wrongNotes| {
          wrongNotes := wrongNotes[..wi] + wrongNotes[wi + 1..];
        }
        assert fixedNotes[fi..][1..] == fixedNotes[fi + 1..];
        fi := fi + 1;
      }
    }

    /** TabNoteList::RemoveDuplicateNotes: from the back, drops every entry
        equal to the one before it. */
    method RemoveDuplicateNotes()
      modifies this
      ensures tabNotes == Dedup(old(tabNotes))
      ensures numStrings == old(numStrings) && usedStrings == old(usedStrings) && wrongNotes == old(wrongNotes)
      ensures duration == old(duration) && isRest == old(isRest) && originalNode == old(originalNode)
    {
      ghost var s := tabNotes;
      var i := |tabNotes| - 1;
      while i >= 1
        invariant s != [] ==> 0 <= i < |s| && tabNotes == s[..i + 1] + KeptFrom(s, i + 1)
        invariant s == [] ==> tabNotes == []
        invariant numStrings == old(numStrings) && usedStrings == old(usedStrings) && wrongNotes == old(wrongNotes)
        invariant duration == old(duration) && isRest == old(isRest) && originalNode == old(originalNode)
      {
        DedupStep(s, tabNotes, i);
        if Same(tabNotes[i], tabNotes[i - 1]) {
          tabNotes := tabNotes[..i] + tabNotes[i + 1..];
        }
        i := i - 1;
      }
      if s != [] {
        assert s[..1] == [s[0]];
      }
    }
  }

  /** One step of RemoveDuplicateNotes, from index i down to i - 1: an
      entry equal to the one before it is dropped, any other kept. */
  lemma DedupStep(s: seq<TabNote>, t: seq<TabNote>, i: nat)
    requires 1 <= i < |s| && t == s[..i + 1] + KeptFrom(s, i + 1)
    ensures t[i] == s[i] && t[i - 1] == s[i - 1]
    ensures Same(s[i], s[i - 1]) ==> t[..i] + t[i + 1..] == s[..i] + KeptFrom(s, i)
    ensures !Same(s[i], s[i - 1]) ==> t == s[..i] + KeptFrom(s, i)
  {
    var rest := KeptFrom(s, i + 1);
    assert KeptFrom(s, i) == (if Same(s[i - 1], s[i]) then [] else [s[i]]) + rest;
    assert s[..i + 1] == s[..i] + [s[i]];
    assert t[..i] == s[..i];
    assert t[i + 1..] == rest;
  }

  /** The first entry of the available strings that is not used is the
      lowest free string that plays the note. */
  lemma FirstFreeInAvailable(strings: seq<InstrumentString>, note: Pitch, used: seq<int>, available: seq<int>, k: nat)
    requires forall s :: s in available <==> Plays(strings, s, note)
    requires StrictlyIncreasing(available)
    requires k <= |available| && forall k' :: 0 <= k' < k ==> available[k'] in used
    requires k < |available| ==> available[k] !in used
    ensures k < |available| ==> FirstFreeFrom(strings, note, used, 0) == Some(available[k])
    ensures k == |available| ==> FirstFreeFrom(strings, note, used, 0) == None
  {
    var bound := if k < |available| then available[k] else |strings|;
    assert k < |available| ==> available[k] in available;
    forall s | 0 <= s < bound && Plays(strings, s, note) ensures s in used {
      assert s in available;
      var m :| 0 <= m < |available| && available[m] == s;
      assert m < k;
    }
    FirstFreeSkip(strings, note, used, 0, bound);
  }

  lemma {:induction false} FirstFreeSkip(strings: seq<InstrumentString>, note: Pitch, used: seq<int>, a: nat, b: nat)
    requires a <= b <= |strings|
    requires forall s :: a <= s < b && Plays(strings, s, note) ==> s in used
    ensures FirstFreeFrom(strings, note, used, a) == FirstFreeFrom(strings, note, used, b)
    decreases b - a
  {
    if a < b {
      FirstFreeSkip(strings, note, used, a + 1, b);
    }
  }

  /** The inner removal loop finds the first entry that is the node. */
  lemma {:induction false} RemoveFirstAt(w: seq<NoteInput>, node: nat, j: nat)
    requires j <= |w| && forall k :: 0 <= k < j ==> w[k].node != node
    requires j < |w| ==> w[j].node == node
    ensures j < |w| ==> RemoveFirst(w, node) == w[..j] + w[j + 1..]
    ensures j == |w| ==> RemoveFirst(w, node) == w
    decreases j
  {
    if j > 0 {
      RemoveFirstAt(w[1..], node, j - 1);
      if j < |w| {
        assert w[..j] + w[j + 1..] == [w[0]] + (w[1..][..j - 1] + w[1..][j..]);
      }
    } else if j == |w| {
    }
  }
}
