/** The stem-direction voice tracker of IslandEngraver (UpdateStemState)
    and the two-voice rest displacement and ShiftLeft decision at the head
    of IslandEngraver::Engrave. Chord::StateInfo is abstracted to the
    fields these read and write: the chord, the chord it continues, a
    tessitura key, the direction and previous direction, the new-voice
    flag, whether the chord is a rest, and its lowest and highest
    line-space. */
module Stems {
  import opened Wrappers

  /** The handle of a chord token. */
  type ChordRef = nat

  /** Chord::StateInfo's stem direction; Unset is the value a fresh entry
      carries before a direction is given to it. */
  datatype Direction = Unset | Down | Up

  /** One token of the island as UpdateStemState sees it: a chord token
      with the chord it continues (its backward ContinuityLink), the
      tessitura key and the rest / range facts UpdateTessitura computes,
      or any other token. */
  datatype TokenView =
    | OtherToken
    | ChordToken(chord: ChordRef, continues: Option<ChordRef>, tessitura: int,
                 isRest: bool, lowest: int, highest: int)

  /** Chord::StateInfo. */
  datatype Entry = Entry(c: Option<ChordRef>, p: Option<ChordRef>, tessitura: int,
                         d: Direction, pd: Direction, newVoice: bool,
                         isRest: bool, lowest: int, highest: int)

  /** The tessitura given to the entry of a token that is not a chord. */
  const NoChordTessitura := 999

  // ---------------------------------------------------------------------
  // Specification of UpdateStemState
  // ---------------------------------------------------------------------

  /** The fresh entry a token adds to Current. */
  function EntryOf(t: TokenView): Entry {
    match t
    case OtherToken => Entry(None, None, NoChordTessitura, Unset, Unset, false, false, 0, 0)
    case ChordToken(c, p, k, r, lo, hi) => Entry(Some(c), p, k, Unset, Unset, false, r, lo, hi)
  }

  /** The entries of the island's tokens, in token order. */
  function Entries(tokens: seq<TokenView>): (r: seq<Entry>)
    ensures |r| == |tokens|
  {
    seq(|tokens|, i requires 0 <= i < |tokens| => EntryOf(tokens[i]))
  }

  /** Every token yields one entry: a chord token an entry holding that
      chord, with its continued chord and tessitura, any other token an
      entry with no chord and the tessitura 999. */
  lemma EntriesMeaning(tokens: seq<TokenView>, i: int)
    requires 0 <= i < |tokens|
    ensures |Entries(tokens)| == |tokens|
    ensures Entries(tokens)[i].c.Some? <==> tokens[i].ChordToken?
    ensures tokens[i].ChordToken? ==>
      Entries(tokens)[i].c == Some(tokens[i].chord) && Entries(tokens)[i].p == tokens[i].continues
      && Entries(tokens)[i].tessitura == tokens[i].tessitura
    ensures tokens[i].OtherToken? ==>
      Entries(tokens)[i].p.None? && Entries(tokens)[i].tessitura == NoChordTessitura
  {
  }

  predicate HasChord(tokens: seq<TokenView>) {
    exists i :: 0 <= i < |tokens| && tokens[i].ChordToken?
  }

  /** Entries ordered from the bottom voice up. */
  predicate SortedByTessitura(s: seq<Entry>) {
    forall i, j :: 0 <= i < j < |s| ==> s[i].tessitura <= s[j].tessitura
  }

  /** Places e in the sorted list s, after the entries whose key is below
      its own. */
  function Insert(e: Entry, s: seq<Entry>): (r: seq<Entry>)
    requires SortedByTessitura(s)
    ensures SortedByTessitura(r)
    ensures multiset(r) == multiset(s) + multiset{e}
    ensures |r| == |s| + 1 && r[0] == (if s == [] || e.tessitura <= s[0].tessitura then e else s[0])
  {
    if s == [] || e.tessitura <= s[0].tessitura then [e] + s
    else
      assert s == [s[0]] + s[1..];
      [s[0]] + Insert(e, s[1..])
  }

  /** Chord::State::Sort: the entries ordered by tessitura, from the
      bottom voice up. */
  function SortByTessitura(s: seq<Entry>): (r: seq<Entry>)
    ensures SortedByTessitura(r)
    ensures multiset(r) == multiset(s)
  {
    if s == [] then []
    else
      assert s == [s[0]] + s[1..];
      Insert(s[0], SortByTessitura(s[1..]))
  }

  /** The first entry of prev that holds chord x. */
  function FirstHolding(prev: seq<Entry>, x: ChordRef): (r: Option<nat>)
    ensures r.Some? ==> r.value < |prev| && prev[r.value].c == Some(x)
    ensures r.Some? ==> forall j :: 0 <= j < r.value ==> prev[j].c != Some(x)
    ensures r.None? <==> forall j :: 0 <= j < |prev| ==> prev[j].c != Some(x)
  {
    if prev == [] then None
    else if prev[0].c == Some(x) then Some(0)
    else
      match FirstHolding(prev[1..], x)
      case None => None
      case Some(j) => Some(j + 1)
  }

  /** The entry e marked against the previous island's entries: a voice
      continued from the first previous entry holding its continued chord
      takes over that entry's direction, any other voice is new. */
  function Mark(prev: seq<Entry>, e: Entry): Entry {
    match (if e.p.Some? then FirstHolding(prev, e.p.value) else None)
    case Some(j) => e.(newVoice := false, pd := prev[j].d)
    case None => e.(newVoice := true)
  }

  /** The entries after the NewVoices pass. */
  function Voiced(prev: seq<Entry>, cur: seq<Entry>): (r: seq<Entry>)
    ensures |r| == |cur|
  {
    seq(|cur|, i requires 0 <= i < |cur| => Mark(prev, cur[i]))
  }

  /** The entries after each takes its previous direction. */
  function Inherited(s: seq<Entry>): (r: seq<Entry>)
    ensures |r| == |s|
  {
    seq(|s|, i requires 0 <= i < |s| => s[i].(d := s[i].pd))
  }

  /** Stem direction alternating from Down on the lowest voice. */
  function Alternate(i: nat): Direction {
    if i % 2 == 0 then Down else Up
  }

  /** The entries after the alternation pass: all of them in the split
      case, otherwise only the new voices. */
  function Restemmed(s: seq<Entry>, split: bool): (r: seq<Entry>)
    ensures |r| == |s|
  {
    seq(|s|, i requires 0 <= i < |s| =>
      if split || s[i].newVoice then s[i].(d := Alternate(i)) else s[i])
  }

  /** The number of new voices. */
  function NewVoiceCount(s: seq<Entry>): nat {
    if s == [] then 0
    else NewVoiceCount(s[..|s| - 1]) + (if s[|s| - 1].newVoice then 1 else 0)
  }

  /** One voice of the previous island split into several. */
  predicate Split(prev: seq<Entry>, cur: seq<Entry>) {
    |prev| == 1 && |cur| > 1
  }

  /** The sorted entries cur after the three passes of UpdateStemState. */
  function Directed(prev: seq<Entry>, cur: seq<Entry>): (r: seq<Entry>)
    ensures |r| == |cur|
  {
    var v := Inherited(Voiced(prev, cur));
    if Split(prev, cur) || NewVoiceCount(Voiced(prev, cur)) > 0 then Restemmed(v, Split(prev, cur)) else v
  }

  /** A positive count means some entry is a new voice. */
  lemma {:induction false} CountedVoice(s: seq<Entry>)
    ensures NewVoiceCount(s) > 0 <==> exists i :: 0 <= i < |s| && s[i].newVoice
  {
    if s != [] {
      var t := s[..|s| - 1];
      CountedVoice(t);
      if exists i :: 0 <= i < |t| && t[i].newVoice {
        var i :| 0 <= i < |t| && t[i].newVoice;
        assert s[i] == t[i];
      }
      if exists i :: 0 <= i < |s| && s[i].newVoice {
        var i :| 0 <= i < |s| && s[i].newVoice;
        if i < |t| { assert t[i] == s[i]; }
      }
    }
  }

  /** An entry is a continuing voice exactly when the chord it continues
      is held by some entry of the previous island; it then takes over the
      direction of the first such entry. Every other field is the entry's
      own. */
  lemma VoiceContinues(prev: seq<Entry>, cur: seq<Entry>, i: int)
    requires 0 <= i < |cur|
    ensures !Directed(prev, cur)[i].newVoice <==>
      cur[i].p.Some? && exists j :: 0 <= j < |prev| && prev[j].c == cur[i].p
    ensures !Directed(prev, cur)[i].newVoice ==>
      exists j :: 0 <= j < |prev| && prev[j].c == cur[i].p
        && Directed(prev, cur)[i].pd == prev[j].d
        && forall k :: 0 <= k < j ==> prev[k].c != cur[i].p
    ensures Directed(prev, cur)[i].newVoice ==> Directed(prev, cur)[i].pd == cur[i].pd
    ensures var r := Directed(prev, cur)[i];
      r.c == cur[i].c && r.p == cur[i].p && r.tessitura == cur[i].tessitura
      && r.isRest == cur[i].isRest && r.lowest == cur[i].lowest && r.highest == cur[i].highest
  {
    if cur[i].p.Some? {
      var m := FirstHolding(prev, cur[i].p.value);
      if m.Some? {
        assert Directed(prev, cur)[i].pd == prev[m.value].d;
      }
    }
  }

  /** The direction pass: in the split case every voice, otherwise every
      new voice, is stemmed Down at an even position from the bottom and Up
      at an odd one; any other voice keeps the direction it took over. */
  lemma StemAlternation(prev: seq<Entry>, cur: seq<Entry>, i: int)
    requires 0 <= i < |cur|
    ensures Split(prev, cur) || Directed(prev, cur)[i].newVoice ==>
      Directed(prev, cur)[i].d == (if i % 2 == 0 then Down else Up)
    ensures !Split(prev, cur) && !Directed(prev, cur)[i].newVoice ==>
      Directed(prev, cur)[i].d == Directed(prev, cur)[i].pd
  {
    var v := Voiced(prev, cur);
    if v[i].newVoice {
      CountedVoice(v);
    }
  }

  /** The entries with their stem state set back to that of a fresh
      entry. */
  function Fresh(s: seq<Entry>): (r: seq<Entry>)
    ensures |r| == |s|
  {
    seq(|s|, i requires 0 <= i < |s| => s[i].(d := Unset, pd := Unset, newVoice := false))
  }

  /** The passes change only the stem state of the entries. */
  lemma DirectedFresh(prev: seq<Entry>, cur: seq<Entry>)
    ensures Fresh(Directed(prev, cur)) == Fresh(cur)
    ensures forall i :: 0 <= i < |cur| ==> Directed(prev, cur)[i].tessitura == cur[i].tessitura
  {
    forall i | 0 <= i < |cur|
      ensures Fresh(Directed(prev, cur))[i] == Fresh(cur)[i]
      ensures Directed(prev, cur)[i].tessitura == cur[i].tessitura
    {
      VoiceContinues(prev, cur, i);
    }
  }

  /** Entries with the stem state of a fresh entry. */
  predicate AllFresh(s: seq<Entry>) {
    forall i :: 0 <= i < |s| ==> s[i].d == Unset && s[i].pd == Unset && !s[i].newVoice
  }

  /** Inserting a fresh entry among fresh entries gives fresh entries. */
  lemma {:induction false} InsertFresh(e: Entry, s: seq<Entry>)
    requires SortedByTessitura(s) && AllFresh(s) && AllFresh([e])
    ensures AllFresh(Insert(e, s))
  {
    if !(s == [] || e.tessitura <= s[0].tessitura) {
      InsertFresh(e, s[1..]);
    }
  }

  /** Sorting fresh entries gives fresh entries. */
  lemma {:induction false} SortFresh(s: seq<Entry>)
    requires AllFresh(s)
    ensures AllFresh(SortByTessitura(s))
  {
    if s != [] {
      SortFresh(s[1..]);
      InsertFresh(s[0], SortByTessitura(s[1..]));
    }
  }

  /** The sorted entries of the tokens are fresh entries. */
  lemma SortedFresh(tokens: seq<TokenView>)
    ensures Fresh(SortByTessitura(Entries(tokens))) == SortByTessitura(Entries(tokens))
  {
    SortFresh(Entries(tokens));
  }

  /** After a chord-bearing island, Current holds one entry per token,
      ordered from the bottom voice up: apart from their stem state they
      are the tokens' entries, reordered. */
  lemma UpdatedEntries(prev: seq<Entry>, tokens: seq<TokenView>)
    ensures var r := Directed(prev, SortByTessitura(Entries(tokens)));
      |r| == |tokens| && SortedByTessitura(r)
      && multiset(Fresh(r)) == multiset(Entries(tokens))
  {
    var s := SortByTessitura(Entries(tokens));
    assert |s| == |tokens| by {
      assert |multiset(s)| == |multiset(Entries(tokens))|;
    }
    DirectedFresh(prev, s);
    SortedFresh(tokens);
  }

  /** When both tokens of a two-token island are chords, both entries of
      Current hold a chord, whichever way the island's voices go. */
  lemma ChordedAfter(prev: seq<Entry>, tokens: seq<TokenView>)
    requires |tokens| == 2 ==> tokens[0].ChordToken? && tokens[1].ChordToken?
    ensures Chorded(Entries(tokens))
    ensures Chorded(Directed(prev, SortByTessitura(Entries(tokens))))
  {
    var r := Directed(prev, SortByTessitura(Entries(tokens)));
    UpdatedEntries(prev, tokens);
    if |tokens| == 2 {
      forall i | 0 <= i < 2
        ensures r[i].c.Some?
      {
        assert Fresh(r)[i] in multiset(Entries(tokens));
        var k :| 0 <= k < 2 && Entries(tokens)[k] == Fresh(r)[i];
      }
    }
  }

  // ---------------------------------------------------------------------
  // Rest displacement
  // ---------------------------------------------------------------------

  /** Line-space offsets from the middle line, LS0. */
  const LS0 := 0
  const LS_4 := -4
  const LS2 := 2

  /** The new Position of the first note of a chord. */
  datatype RestMove = RestMove(chord: ChordRef, position: int)

  /** What Engrave decides for two voices: rest moves and the chord to
      shift left, if any. */
  datatype Displacement = Displacement(moves: seq<RestMove>, shiftLeft: Option<ChordRef>)

  /** Both entries of a two-voice island hold a chord. */
  predicate Chorded(cur: seq<Entry>) {
    |cur| == 2 ==> cur[0].c.Some? && cur[1].c.Some?
  }

  /** The bottom voice: the first entry when it is stemmed down, otherwise
      the second. */
  function BottomOf(cur: seq<Entry>): (r: nat)
    requires |cur| == 2
    ensures r < 2 && (cur[0].d == Down <==> r == 0)
  {
    if cur[0].d == Down then 0 else 1
  }

  /** The rest displacement and ShiftLeft decision of Engrave. */
  function RestPlan(cur: seq<Entry>): (r: Displacement)
    requires Chorded(cur)
    ensures |cur| != 2 ==> r == Displacement([], None)
    ensures |cur| == 2 ==>
      var b := cur[BottomOf(cur)]; var t := cur[1 - BottomOf(cur)];
      (b.isRest && t.isRest ==>
        r == Displacement([RestMove(b.c.value, LS_4), RestMove(t.c.value, LS2)], None))
      && (b.isRest && !t.isRest ==>
        r.shiftLeft.None? && |r.moves| == 1 && r.moves[0].chord == b.c.value
        && r.moves[0].position <= LS0 && r.moves[0].position <= t.lowest - 5
        && (r.moves[0].position == LS0 || r.moves[0].position == t.lowest - 5))
      && (!b.isRest && t.isRest ==>
        r.shiftLeft.None? && |r.moves| == 1 && r.moves[0].chord == t.c.value
        && r.moves[0].position >= LS0 && r.moves[0].position >= b.highest + 5
        && (r.moves[0].position == LS0 || r.moves[0].position == b.highest + 5))
      && (!b.isRest && !t.isRest ==>
        r.moves == [] && (r.shiftLeft.Some? ==> r.shiftLeft == b.c)
        && (r.shiftLeft.None? <==> t.lowest - 2 >= b.highest || b.lowest - 2 >= t.highest))
  {
    if |cur| != 2 then Displacement([], None)
    else
      var b := cur[BottomOf(cur)];
      var t := cur[1 - BottomOf(cur)];
      if b.isRest && t.isRest then
        Displacement([RestMove(b.c.value, LS_4), RestMove(t.c.value, LS2)], None)
      else if b.isRest then
        var k := LS0 + t.lowest - 5;
        Displacement([RestMove(b.c.value, if k > LS0 then LS0 else k)], None)
      else if t.isRest then
        var k := LS0 + b.highest + 5;
        Displacement([RestMove(t.c.value, if k < LS0 then LS0 else k)], None)
      else if t.lowest - 2 >= b.highest || b.lowest - 2 >= t.highest then
        Displacement([], None)
      else
        Displacement([], b.c)
  }

  /** Line-space x lies within the range of the voice e. */
  predicate Within(e: Entry, x: int) {
    e.lowest <= x <= e.highest
  }

  /** A chord is shifted left exactly when the two sounding voices come
      closer than two line-spaces: some note of one and some note of the
      other lie less than two line-spaces apart. */
  lemma ShiftLeftWhenClose(cur: seq<Entry>)
    requires |cur| == 2 && cur[0].c.Some? && cur[1].c.Some?
    requires !cur[0].isRest && !cur[1].isRest
    requires cur[0].lowest <= cur[0].highest && cur[1].lowest <= cur[1].highest
    ensures RestPlan(cur).shiftLeft.Some? <==>
      exists x, y :: Within(cur[0], x) && Within(cur[1], y) && -2 < x - y < 2
  {
    var b := cur[BottomOf(cur)];
    var t := cur[1 - BottomOf(cur)];
    if RestPlan(cur).shiftLeft.Some? {
      var x := if b.highest < t.lowest then b.highest else if t.highest < b.lowest then b.lowest
               else if b.lowest < t.lowest then t.lowest else b.lowest;
      var y := if b.highest < t.lowest then t.lowest else if t.highest < b.lowest then t.highest else x;
      assert Within(b, x) && Within(t, y) && -2 < x - y < 2;
      if BottomOf(cur) == 0 {
        assert Within(cur[0], x) && Within(cur[1], y);
      } else {
        assert Within(cur[0], y) && Within(cur[1], x);
      }
    } else {
      forall x, y | Within(cur[0], x) && Within(cur[1], y)
        ensures !(-2 < x - y < 2)
      {
      }
    }
  }

  /** The Positions after applying the moves in order. */
  function Moved(at: map<ChordRef, int>, moves: seq<RestMove>): map<ChordRef, int>
    decreases |moves|
  {
    if moves == [] then at
    else Moved(at[moves[0].chord := moves[0].position], moves[1..])
  }

  // ---------------------------------------------------------------------
  // The engraver's state
  // ---------------------------------------------------------------------

  /** The Position of the first note of each chord, as a line-space offset
      from the middle line. */
  class NotePositions {
    var at: map<ChordRef, int>

    constructor (at0: map<ChordRef, int>)
      ensures at == at0
    {
      at := at0;
    }
  }

  /** Chord::State pair of the engraver's directory: the entries of the
      island being engraved and those of the previous island. */
  class StemState {
    var current: seq<Entry>
    var previous: seq<Entry>

    constructor ()
      ensures current == [] && previous == []
    {
      current := [];
      previous := [];
    }

    /** IslandEngraver::UpdateStemState. */
    method UpdateStemState(tokens: seq<TokenView>)
      modifies this
      ensures !HasChord(tokens) ==> current == Entries(tokens) && previous == old(previous)
      ensures HasChord(tokens) ==>
        current == Directed(old(previous), SortByTessitura(Entries(tokens))) && previous == current
    {
      var containsChords := CollectEntries(tokens);
      if !containsChords {
        return;
      }
      current := SortByTessitura(current);
      ghost var sorted := current;
      var newVoices := MarkVoices();
      InheritDirections();
      if (|previous| == 1 && |current| > 1) || newVoices != 0 {
        AlternateStems();
      }
      assert current == Directed(previous, sorted);
      if |current| != 0 {
        previous := current;
      }
    }

    /** The first pass: Current rebuilt with one fresh entry per token. */
    method CollectEntries(tokens: seq<TokenView>) returns (containsChords: bool)
      modifies this
      ensures current == Entries(tokens) && previous == old(previous)
      ensures containsChords <==> HasChord(tokens)
    {
      current := [];
      containsChords := false;
      for i := 0 to |tokens|
        invariant previous == old(previous)
        invariant current == Entries(tokens[..i])
        invariant containsChords <==> HasChord(tokens[..i])
      {
        if tokens[i].ChordToken? {
          containsChords := true;
          current := current + [Entry(Some(tokens[i].chord), tokens[i].continues, tokens[i].tessitura,
                                      Unset, Unset, false, tokens[i].isRest, tokens[i].lowest, tokens[i].highest)];
        } else {
          current := current + [Entry(None, None, NoChordTessitura, Unset, Unset, false, false, 0, 0)];
        }
        assert tokens[..i + 1] == tokens[..i] + [tokens[i]];
      }
      assert tokens[..|tokens|] == tokens;
    }

    /** The NewVoices pass: each entry marked against Previous, and the
        number of new voices. */
    method MarkVoices() returns (newVoices: int)
      modifies this
      ensures current == Voiced(old(previous), old(current)) && previous == old(previous)
      ensures newVoices == NewVoiceCount(current)
    {
      newVoices := 0;
      for i := 0 to |current|
        invariant previous == old(previous) && |current| == |old(current)|
        invariant forall k :: 0 <= k < i ==> current[k] == Voiced(previous, old(current))[k]
        invariant forall k :: i <= k < |current| ==> current[k] == old(current)[k]
        invariant newVoices == NewVoiceCount(current[..i])
      {
        ghost var before := current[..i];
        var e := current[i].(newVoice := true);
        newVoices := newVoices + 1;
        if current[i].p.Some? {
          var needle := current[i].p.value;
          for j := 0 to |previous|
            invariant forall k :: 0 <= k < j ==> previous[k].c != Some(needle)
          {
            if previous[j].c == Some(needle) {
              e := e.(newVoice := false, pd := previous[j].d);
              newVoices := newVoices - 1;
              break;
            }
          }
        }
        current := current[i := e];
        assert current[..i + 1] == before + [e];
      }
      assert current[..|current|] == current;
    }

    /** Every entry takes the direction of the voice it continues. */
    method InheritDirections()
      modifies this
      ensures current == Inherited(old(current)) && previous == old(previous)
    {
      for i := 0 to |current|
        invariant previous == old(previous) && |current| == |old(current)|
        invariant forall k :: 0 <= k < i ==> current[k] == Inherited(old(current))[k]
        invariant forall k :: i <= k < |current| ==> current[k] == old(current)[k]
      {
        current := current[i := current[i].(d := current[i].pd)];
      }
    }

    /** The alternation pass, taken when a voice is new or Previous split
        into several voices. */
    method AlternateStems()
      modifies this
      ensures current == Restemmed(old(current), Split(old(previous), old(current)))
      ensures previous == old(previous)
    {
      for i := 0 to |current|
        invariant previous == old(previous) && |current| == |old(current)|
        invariant forall k :: 0 <= k < i ==> current[k] == Restemmed(old(current), Split(previous, old(current)))[k]
        invariant forall k :: i <= k < |current| ==> current[k] == old(current)[k]
      {
        if (|previous| == 1 && |current| > 1) || current[i].newVoice {
          current := current[i := current[i].(d := if i % 2 == 0 then Down else Up)];
        }
      }
    }

    /** IslandEngraver::Engrave up to the engraving of the tokens: the stem
        state is brought up to date, then the rests of a two-voice island
        are displaced and the chord to shift left is chosen. */
    method Engrave(tokens: seq<TokenView>, notes: NotePositions) returns (shiftLeft: Option<ChordRef>)
      requires |tokens| == 2 ==> tokens[0].ChordToken? && tokens[1].ChordToken?
      modifies this, notes
      ensures !HasChord(tokens) ==> current == Entries(tokens) && previous == old(previous)
      ensures HasChord(tokens) ==>
        current == Directed(old(previous), SortByTessitura(Entries(tokens))) && previous == current
      ensures Chorded(current)
      ensures shiftLeft == RestPlan(current).shiftLeft
      ensures notes.at == Moved(old(notes.at), RestPlan(current).moves)
    {
      ChordedAfter(previous, tokens);
      UpdateStemState(tokens);
      shiftLeft := DisplaceRests(notes);
    }

    /** The rest displacement and ShiftLeft decision at the head of
        IslandEngraver::Engrave, over the entries UpdateStemState left. */
    method DisplaceRests(notes: NotePositions) returns (shiftLeft: Option<ChordRef>)
      requires Chorded(current)
      modifies notes
      ensures shiftLeft == RestPlan(current).shiftLeft
      ensures notes.at == Moved(old(notes.at), RestPlan(current).moves)
    {
      shiftLeft := None;
      if |current| == 2 {
        var bottom, top;
        if current[0].d == Down {
          bottom, top := current[0], current[1];
        } else {
          bottom, top := current[1], current[0];
        }
        if bottom.isRest && top.isRest {
          notes.at := notes.at[bottom.c.value := LS_4];
          notes.at := notes.at[top.c.value := LS2];
          ghost var moves := RestPlan(current).moves;
          ghost var once := old(notes.at)[bottom.c.value := LS_4];
          assert Moved(old(notes.at), moves) == Moved(once, moves[1..]);
          assert moves[1..][1..] == [];
          assert Moved(once, moves[1..]) == Moved(once[top.c.value := LS2], []);
        } else if bottom.isRest && !top.isRest {
          notes.at := notes.at[bottom.c.value := LS0 + top.lowest - 5];
          if notes.at[bottom.c.value] - LS0 > 0 {
            notes.at := notes.at[bottom.c.value := LS0];
          }
          assert RestPlan(current).moves[1..] == [];
        } else if !bottom.isRest && top.isRest {
          notes.at := notes.at[top.c.value := LS0 + bottom.highest + 5];
          if notes.at[top.c.value] - LS0 < 0 {
            notes.at := notes.at[top.c.value := LS0];
          }
          assert RestPlan(current).moves[1..] == [];
        } else {
          if top.lowest - 2 >= bottom.highest || bottom.lowest - 2 >= top.highest {
            shiftLeft := None;
          } else {
            shiftLeft := bottom.c;
          }
        }
      }
    }
  }
}
