/** The stringed-instrument token: its tuning per instrument type and string
    count, the setters that keep its fields in range, and the pitch-to-fret
    queries that tablature is built from. Pitches are the MIDI-value
    concepts of Utility, whose index is the MIDI note number. */
module Instruments {
  import opened Utility

  datatype InstrumentType = Guitar | Bass

  datatype DisplaySetting = Standard | Tab | StandardAndTab

  /** One string: its open pitch as a MIDI note number and how many
      semitones (frets) it offers above the open string. */
  datatype InstrumentString = InstrumentString(midiNote: int, semitones: nat)

  /** The fields of an instrument as a value, the form in which a graph
      node holds it. */
  datatype InstrumentValue = InstrumentValue(
    instrumentType: InstrumentType,
    defaultNumStrings: int,
    numSemitones: nat,
    strings: seq<InstrumentString>,
    displaySetting: DisplaySetting)

  /** The MIDI note number of a pitch concept, MIDIValue0 standing in for
      Undefined as the source's lookups do. */
  function MidiIndex(p: Pitch): int {
    if p.MIDIValue? then p.number else 0
  }

  /** InstrumentString's constructor: an undefined note becomes MIDIValue0
      and a negative semitone count becomes 0. */
  function MakeString(note: Pitch, semitones: int): (s: InstrumentString)
    ensures note.MIDIValue? ==> s.midiNote == note.number
    ensures note.Undefined? ==> s.midiNote == 0
    ensures semitones >= 0 ==> s.semitones == semitones
    ensures semitones < 0 ==> s.semitones == 0
  {
    InstrumentString(MidiIndex(note), if semitones >= 0 then semitones else 0)
  }

  /** StringedInstrument::IsStringNumberAvailableForInstrument. */
  predicate IsStringNumberAvailable(t: InstrumentType, n: int) {
    match t
    case Guitar => 6 <= n <= 8
    case Bass => 4 <= n <= 7
  }

  /** StringedInstrument::GetDefaultNumStringsForInstrument: six strings for
      a guitar, four for a bass; always a valid count for the type. */
  function DefaultNumStrings(t: InstrumentType): (n: int)
    ensures IsStringNumberAvailable(t, n)
    ensures n == 6 || n == 4
  {
    match t
    case Guitar => 6
    case Bass => 4
  }

  /** The open pitches InitializeStrings adds, top string first. */
  function DefaultTuning(t: InstrumentType, n: int): seq<int> {
    match t
    case Guitar =>
      [64, 59, 55, 50, 45, 40] + (if n > 6 then [35] else []) + (if n > 7 then [30] else [])
    case Bass =>
      (if n > 5 then [48] else []) + [43, 38, 33, 28]
      + (if n > 4 then [23] else []) + (if n > 6 then [18] else [])
  }

  /** Strings with the given open pitches, each with `semitones` frets. */
  function Tuned(opens: seq<int>, semitones: nat): (r: seq<InstrumentString>)
    ensures |r| == |opens|
  {
    if opens == [] then [] else Tuned(opens[..|opens| - 1], semitones) + [InstrumentString(opens[|opens| - 1], semitones)]
  }

  lemma TunedSnoc(opens: seq<int>, x: int, semitones: nat)
    ensures Tuned(opens + [x], semitones) == Tuned(opens, semitones) + [MakeString(MIDIValue(x), semitones)]
  {
    assert (opens + [x])[..|opens|] == opens;
  }

  predicate StrictlyDecreasing(s: seq<int>) {
    forall i, j :: 0 <= i < j < |s| ==> s[i] > s[j]
  }

  /** For a valid type/count pair the default tuning has exactly that many
      strings, highest first, all of them MIDI notes; a guitar's top string
      is E4 (64) and its sixth E2 (40), a bass's lowest four are G2 D2 A1 E1
      wherever they sit. */
  lemma DefaultTuningShape(t: InstrumentType, n: int)
    requires IsStringNumberAvailable(t, n)
    ensures |DefaultTuning(t, n)| == n
    ensures StrictlyDecreasing(DefaultTuning(t, n))
    ensures forall i :: 0 <= i < n ==> 0 <= DefaultTuning(t, n)[i] <= 127
    ensures t == Guitar ==> DefaultTuning(t, n)[0] == 64 && DefaultTuning(t, n)[5] == 40
    ensures t == Bass ==> var o := if n > 5 then 1 else 0;
      DefaultTuning(t, n)[o..o + 4] == [43, 38, 33, 28]
  {
    if t == Guitar {
      GuitarTuning(n);
    } else {
      BassTuning(n);
    }
  }

  lemma GuitarTuning(n: int)
    requires 6 <= n <= 8
    ensures DefaultTuning(Guitar, n) == [64, 59, 55, 50, 45, 40, 35, 30][..n]
    ensures StrictlyDecreasing(DefaultTuning(Guitar, n))
  {
    var s := [64, 59, 55, 50, 45, 40, 35, 30];
    assert StrictlyDecreasing(s);
    if n == 6 { assert DefaultTuning(Guitar, n) == s[..6]; }
    else if n == 7 { assert DefaultTuning(Guitar, n) == s[..7]; }
    else { assert DefaultTuning(Guitar, n) == s; }
  }

  lemma BassTuning(n: int)
    requires 4 <= n <= 7
    ensures DefaultTuning(Bass, n) == [48, 43, 38, 33, 28, 23, 18][(if n > 5 then 0 else 1)..(if n > 5 then n else n + 1)]
    ensures StrictlyDecreasing(DefaultTuning(Bass, n))
  {
    var s := [48, 43, 38, 33, 28, 23, 18];
    assert StrictlyDecreasing(s);
    if n == 4 { assert DefaultTuning(Bass, n) == s[1..5]; }
    else if n == 5 { assert DefaultTuning(Bass, n) == s[1..6]; }
    else if n == 6 { assert DefaultTuning(Bass, n) == s[0..6]; }
    else { assert DefaultTuning(Bass, n) == s[0..7]; }
  }

  /** StringedInstrument::GetPostionOnStringForNote: the fret at which
      string `s` sounds `note`, or -1 when the index is out of range, the
      note is undefined, or the note lies outside the string's range. */
  function PositionOnString(strings: seq<InstrumentString>, s: int, note: Pitch): (fret: int)
    ensures fret == -1 || fret >= 0
    ensures fret >= 0 <==>
      0 <= s < |strings| && note.MIDIValue?
      && strings[s].midiNote <= note.number <= strings[s].midiNote + strings[s].semitones
    ensures fret >= 0 ==> strings[s].midiNote + fret == note.number && fret <= strings[s].semitones
  {
    if 0 <= s < |strings| && note.MIDIValue? then
      var openString := strings[s].midiNote;
      var noteMidi := note.number;
      if noteMidi >= openString && noteMidi <= openString + strings[s].semitones then
        noteMidi - openString
      else -1
    else -1
  }

  /** A string plays the note: GetPostionOnStringForNote is not negative. */
  predicate Plays(strings: seq<InstrumentString>, s: int, note: Pitch) {
    PositionOnString(strings, s, note) >= 0
  }

  predicate StrictlyIncreasing(s: seq<int>) {
    forall i, j :: 0 <= i < j < |s| ==> s[i] < s[j]
  }

  /** A fret, once found, determines the pitch back: the position on a
      string and the string's open note add up to the note again. */
  lemma PositionRoundTrip(strings: seq<InstrumentString>, s: int, fret: int)
    requires 0 <= s < |strings| && 0 <= fret <= strings[s].semitones
    ensures PositionOnString(strings, s, MIDIValue(strings[s].midiNote + fret)) == fret
  {
  }

  /** StringedInstrument: a Token whose strings and settings are updated in
      place. */
  class StringedInstrument {
    var instrumentType: InstrumentType
    var defaultNumStrings: int
    var numSemitones: nat
    var strings: seq<InstrumentString>
    var displaySetting: DisplaySetting

    function Value(): InstrumentValue
      reads this
    {
      InstrumentValue(instrumentType, defaultNumStrings, numSemitones, strings, displaySetting)
    }

    /** Every field but the strings. */
    function Settings(): (InstrumentType, int, nat, DisplaySetting)
      reads this
    {
      (instrumentType, defaultNumStrings, numSemitones, displaySetting)
    }

    /** The strings InitializeStrings produces for the current fields. */
    function InitialStrings(): seq<InstrumentString>
      reads this
    {
      Tuned(DefaultTuning(instrumentType, defaultNumStrings), numSemitones)
    }

    /** StringedInstrument(type, numStrings, numSemitones, displaySetting):
        negative semitones become 0 and a string count the type does not
        allow becomes the type's default, then the strings are set up. */
    constructor (t: InstrumentType, numStrings: int, semitones: int, display: DisplaySetting)
      ensures instrumentType == t && displaySetting == display
      ensures semitones >= 0 ==> numSemitones == semitones
      ensures semitones < 0 ==> numSemitones == 0
      ensures IsStringNumberAvailable(t, numStrings) ==> defaultNumStrings == numStrings
      ensures !IsStringNumberAvailable(t, numStrings) ==> defaultNumStrings == DefaultNumStrings(t)
      ensures strings == InitialStrings()
      ensures |strings| == defaultNumStrings
    {
      instrumentType := t;
      defaultNumStrings := numStrings;
      displaySetting := display;
      numSemitones := if semitones >= 0 then semitones else 0;
      strings := [];
      new;
      if !IsStringNumberAvailable(instrumentType, defaultNumStrings) {
        defaultNumStrings := DefaultNumStrings(instrumentType);
      }
      InitializeStrings();
      DefaultTuningShape(instrumentType, defaultNumStrings);
    }

    /** StringedInstrument(): a six-string guitar with 19 frets shown in
        standard notation. */
    constructor Default()
      ensures instrumentType == Guitar && defaultNumStrings == 6
      ensures numSemitones == 19 && displaySetting == Standard
      ensures strings == Tuned([64, 59, 55, 50, 45, 40], 19)
    {
      instrumentType := Guitar;
      defaultNumStrings := DefaultNumStrings(Guitar);
      numSemitones := 19;
      displaySetting := Standard;
      strings := [];
      new;
      InitializeStrings();
      assert DefaultTuning(Guitar, 6) == [64, 59, 55, 50, 45, 40];
    }

    /** StringedInstrument::InitializeStrings: removes every string and adds
        the default tuning for the type and default string count. */
    method InitializeStrings()
      modifies this
      ensures strings == InitialStrings()
      ensures instrumentType == old(instrumentType) && defaultNumStrings == old(defaultNumStrings)
      ensures numSemitones == old(numSemitones) && displaySetting == old(displaySetting)
    {
      RemoveAllStrings();
      if instrumentType == Guitar {
        AddGuitarStrings();
      } else {
        AddBassStrings();
      }
    }

    /** One more string with open pitch x, tuned like the others. */
    method AddOpen(x: int, ghost opens: seq<int>)
      requires strings == Tuned(opens, numSemitones)
      modifies this
      ensures strings == Tuned(opens + [x], numSemitones) && Settings() == old(Settings())
    {
      AddString(MIDIValue(x), numSemitones);
      TunedSnoc(opens, x, numSemitones);
    }

    /** The guitar branch of InitializeStrings. */
    method AddGuitarStrings()
      requires strings == [] && instrumentType == Guitar
      modifies this
      ensures strings == InitialStrings() && Settings() == old(Settings())
    {
      var n := defaultNumStrings;
      ghost var opens: seq<int> := [];
      AddOpen(64, opens);
      opens := opens + [64];
      AddOpen(59, opens);
      opens := opens + [59];
      AddOpen(55, opens);
      opens := opens + [55];
      AddOpen(50, opens);
      opens := opens + [50];
      AddOpen(45, opens);
      opens := opens + [45];
      AddOpen(40, opens);
      opens := opens + [40];
      assert opens == [64, 59, 55, 50, 45, 40];
      if n > 6 {
        AddOpen(35, opens);
        opens := opens + [35];
      }
      if n > 7 {
        AddOpen(30, opens);
        opens := opens + [30];
      }
      assert opens == DefaultTuning(Guitar, n);
    }

    /** The bass branch of InitializeStrings. */
    method AddBassStrings()
      requires strings == [] && instrumentType == Bass
      modifies this
      ensures strings == InitialStrings() && Settings() == old(Settings())
    {
      var n := defaultNumStrings;
      ghost var opens: seq<int> := [];
      if n > 5 {
        AddOpen(48, opens);
        opens := opens + [48];
      }
      AddBassMiddle(opens);
      opens := opens + [43, 38, 33, 28];
      if n > 4 {
        AddOpen(23, opens);
        opens := opens + [23];
      }
      if n > 6 {
        AddOpen(18, opens);
        opens := opens + [18];
      }
      assert opens == DefaultTuning(Bass, n);
    }

    /** The four strings every bass has. */
    method AddBassMiddle(ghost opens: seq<int>)
      requires strings == Tuned(opens, numSemitones)
      modifies this
      ensures strings == Tuned(opens + [43, 38, 33, 28], numSemitones) && Settings() == old(Settings())
    {
      AddOpen(43, opens);
      AddOpen(38, opens + [43]);
      AddOpen(33, opens + [43] + [38]);
      AddOpen(28, opens + [43] + [38] + [33]);
      assert opens + [43] + [38] + [33] + [28] == opens + [43, 38, 33, 28];
    }

    /** StringedInstrument::SetInstrumentType: the strings stay as they are. */
    method SetInstrumentType(t: InstrumentType)
      modifies this
      ensures Value() == old(Value()).(instrumentType := t)
    {
      instrumentType := t;
    }

    /** StringedInstrument::SetDefaultNumberOfStrings: a count the type
        allows is stored and re-tunes the instrument; any other count is
        refused and changes nothing. */
    method SetDefaultNumberOfStrings(n: int) returns (ok: bool)
      modifies this
      ensures ok <==> IsStringNumberAvailable(instrumentType, n)
      ensures !ok ==> Value() == old(Value())
      ensures ok ==> defaultNumStrings == n && strings == InitialStrings() && |strings| == n
      ensures instrumentType == old(instrumentType) && numSemitones == old(numSemitones)
      ensures displaySetting == old(displaySetting)
    {
      if IsStringNumberAvailable(instrumentType, n) {
        defaultNumStrings := n;
        InitializeStrings();
        DefaultTuningShape(instrumentType, n);
        return true;
      }
      return false;
    }

    /** StringedInstrument::SetNumSemitones: clamps at 0 and leaves the
        existing strings' fret counts alone. */
    method SetNumSemitones(n: int)
      modifies this
      ensures n >= 0 ==> Value() == old(Value()).(numSemitones := n)
      ensures n < 0 ==> Value() == old(Value()).(numSemitones := 0)
    {
      numSemitones := if n >= 0 then n else 0;
    }

    /** StringedInstrument::SetNoteOfString: retunes one string; an index out
        of range or an undefined note changes nothing. */
    method SetNoteOfString(i: int, note: Pitch)
      modifies this
      ensures 0 <= i < |old(strings)| && note.MIDIValue? ==>
        Value() == old(Value()).(strings := old(strings)[i := old(strings)[i].(midiNote := note.number)])
      ensures !(0 <= i < |old(strings)| && note.MIDIValue?) ==> Value() == old(Value())
    {
      if 0 <= i < |strings| && note.MIDIValue? {
        strings := strings[i := strings[i].(midiNote := note.number)];
      }
    }

    /** StringedInstrument::SetSemitonesOfString: an index out of range or a
        negative count changes nothing. */
    method SetSemitonesOfString(i: int, semitones: int)
      modifies this
      ensures 0 <= i < |old(strings)| && semitones >= 0 ==>
        Value() == old(Value()).(strings := old(strings)[i := old(strings)[i].(semitones := semitones)])
      ensures !(0 <= i < |old(strings)| && semitones >= 0) ==> Value() == old(Value())
    {
      if 0 <= i < |strings| && semitones >= 0 {
        strings := strings[i := strings[i].(semitones := semitones)];
      }
    }

    /** StringedInstrument::AddString: appends a string, clamped as
        InstrumentString's constructor clamps. */
    method AddString(note: Pitch, semitones: int)
      modifies this
      ensures strings == old(strings) + [MakeString(note, semitones)]
      ensures instrumentType == old(instrumentType) && defaultNumStrings == old(defaultNumStrings)
      ensures numSemitones == old(numSemitones) && displaySetting == old(displaySetting)
    {
      strings := strings + [MakeString(note, semitones)];
    }

    /** StringedInstrument::RemoveString: an index out of range changes
        nothing; otherwise the later strings move up by one. */
    method RemoveString(i: int)
      modifies this
      ensures 0 <= i < |old(strings)| ==>
        Value() == old(Value()).(strings := old(strings)[..i] + old(strings)[i + 1..])
      ensures !(0 <= i < |old(strings)|) ==> Value() == old(Value())
    {
      if 0 <= i < |strings| {
        strings := strings[..i] + strings[i + 1..];
      }
    }

    /** StringedInstrument::RemoveAllStrings. */
    method RemoveAllStrings()
      modifies this
      ensures strings == []
      ensures instrumentType == old(instrumentType) && defaultNumStrings == old(defaultNumStrings)
      ensures numSemitones == old(numSemitones) && displaySetting == old(displaySetting)
    {
      strings := [];
    }

    /** StringedInstrument::SetDisplaySetting. */
    method SetDisplaySetting(d: DisplaySetting)
      modifies this
      ensures Value() == old(Value()).(displaySetting := d)
    {
      displaySetting := d;
    }

    /** StringedInstrument::GetStringsAvailableForNote: the indices of the
        strings that play the note, lowest index first when
        `highestToLowest` is set and in the reverse order otherwise (the
        reverse scan starts one past the last string, which plays nothing). */
    method GetStringsAvailableForNote(note: Pitch, highestToLowest: bool) returns (available: seq<int>)
      ensures forall s :: s in available <==> Plays(strings, s, note)
      ensures highestToLowest ==> StrictlyIncreasing(available)
      ensures !highestToLowest ==> StrictlyDecreasing(available)
    {
      available := [];
      var n := |strings|;
      var bound := if highestToLowest then n else n + 1;
      var i := 0;
      while i < bound
        invariant 0 <= i <= bound
        invariant highestToLowest ==> forall s :: s in available <==> 0 <= s < i && Plays(strings, s, note)
        invariant !highestToLowest ==> forall s :: s in available <==> n - i < s <= n && Plays(strings, s, note)
        invariant highestToLowest ==> StrictlyIncreasing(available) && forall s :: s in available ==> s < i
        invariant !highestToLowest ==> StrictlyDecreasing(available) && forall s :: s in available ==> s > n - i
      {
        var stringIndex := if highestToLowest then i else n - i;
        if PositionOnString(strings, stringIndex, note) >= 0 {
          ghost var before := available;
          available := available + [stringIndex];
          forall a, b | 0 <= a < b < |available|
            ensures highestToLowest ==> available[a] < available[b]
            ensures !highestToLowest ==> available[a] > available[b]
          {
            if b == |before| {
              assert available[a] == before[a] && before[a] in before;
            } else {
              assert available[a] == before[a] && available[b] == before[b];
            }
          }
        }
        i := i + 1;
      }
    }
  }
}
