/** graph::XML: reading a music graph from a parsed XML document and
    writing one back out as text.

    Reading is two passes over the document. The first creates a node for
    every island element at the top level and for the tokens, notes and
    stringed instruments inside it, filing each element under its id in a
    node table. The second resolves the ids the elements name (`across`,
    `down`, `next`, `next-in-voice`, `tied-to`) through the table and adds
    the links; an id that names nothing is skipped.

    The document arrives already parsed: prim's parser is not part of this
    model. A node-table lookup of an id that was never filed yields no
    node and leaves the table as it is, and the table lists its keys in
    the order they were first filed. */
module GraphXML {
  import opened Wrappers
  import opened Graph
  import Instruments
  import Utility
  import Decimal

  /** A parsed XML object: text, or an element with its attributes in
      document order and its child objects. */
  datatype XNode =
    | Text(content: string)
    | Element(name: string, attrs: seq<(string, string)>, children: seq<XNode>)

  /** What prim's parser makes of the input: a parse error, a document
      without a root element, or the root element. */
  datatype Document = Unparsable | Rootless | Parsed(root: XNode)

  /** The value of the first attribute called key, "" when there is none. */
  function AttrIn(attrs: seq<(string, string)>, key: string): string {
    if attrs == [] then ""
    else if attrs[0].0 == key then attrs[0].1
    else AttrIn(attrs[1..], key)
  }

  /** The value is that of the first attribute with the name, and "" when
      no attribute has it. */
  lemma {:induction false} AttrInMeaning(attrs: seq<(string, string)>, key: string)
    ensures (forall i :: 0 <= i < |attrs| ==> attrs[i].0 != key) ==> AttrIn(attrs, key) == ""
    ensures forall i :: 0 <= i < |attrs| && attrs[i].0 == key && (forall j :: 0 <= j < i ==> attrs[j].0 != key) ==>
      AttrIn(attrs, key) == attrs[i].1
  {
    if attrs != [] {
      AttrInMeaning(attrs[1..], key);
      assert forall i :: 1 <= i < |attrs| ==> attrs[i] == attrs[1..][i - 1];
    }
  }

  /** Past an attribute with another name. */
  lemma AttrSkip(attrs: seq<(string, string)>, key: string)
    requires attrs != [] && attrs[0].0 != key
    ensures AttrIn(attrs, key) == AttrIn(attrs[1..], key)
  {
  }

  /** Element::GetAttributeValue; text objects have no attributes. */
  function Attr(e: XNode, key: string): string {
    if e.Element? then AttrIn(e.attrs, key) else ""
  }

  /** The id an element is filed under: its own, or a serial standing in
      for the UUID prim::UUID() generates. No document id is ever equal to
      a generated one. */
  datatype Key = Named(id: string) | Synthetic(serial: nat)

  /** XML::ElementNode: an element and the node made from it, if any. */
  datatype ElementNode = ElementNode(e: XNode, n: Option<Handle>)

  datatype Entry = Entry(key: Key, en: ElementNode)

  /** The node table: entries in the order their keys were first filed. */
  type Table = seq<Entry>

  function KeysOf(t: Table): (r: seq<Key>)
    ensures |r| == |t| && forall i :: 0 <= i < |t| ==> r[i] == t[i].key
  {
    seq(|t|, i requires 0 <= i < |t| => t[i].key)
  }

  predicate UniqueKeys(t: Table) {
    forall i, j :: 0 <= i < j < |t| ==> t[i].key != t[j].key
  }

  /** The position of the first occurrence of k, -1 when there is none. */
  function FirstIndex(keys: seq<Key>, k: Key): (i: int)
    ensures -1 <= i < |keys|
    ensures i < 0 <==> k !in keys
    ensures i >= 0 ==> keys[i] == k && forall j :: 0 <= j < i ==> keys[j] != k
  {
    if keys == [] then -1
    else if keys[0] == k then 0
    else
      var i := FirstIndex(keys[1..], k);
      if i < 0 then -1 else i + 1
  }

  /** Appending another key leaves the first occurrence of k where it was. */
  lemma FirstIndexAppend(keys: seq<Key>, x: Key, k: Key)
    requires x != k
    ensures FirstIndex(keys + [x], k) == FirstIndex(keys, k)
  {
    var i, j := FirstIndex(keys + [x], k), FirstIndex(keys, k);
    if j >= 0 {
      assert (keys + [x])[j] == k;
    }
    if i >= 0 && i < |keys| {
      assert keys[i] == (keys + [x])[i];
    }
  }

  /** The element node filed under k. */
  function Lookup(t: Table, k: Key): (r: Option<ElementNode>)
    ensures r.Some? <==> k in KeysOf(t)
    ensures r.Some? ==> Entry(k, r.value) in t
  {
    var i := FirstIndex(KeysOf(t), k);
    if i < 0 then None else Some(t[i].en)
  }

  /** NodeTable[k] = en: the entry under k is replaced where it stands,
      or a new one is added at the end. */
  function Put(t: Table, k: Key, en: ElementNode): (r: Table)
    ensures KeysOf(r) == if k in KeysOf(t) then KeysOf(t) else KeysOf(t) + [k]
    ensures Lookup(r, k) == Some(en)
    ensures forall k' :: k' != k ==> Lookup(r, k') == Lookup(t, k')
    ensures forall x :: x in r ==> x == Entry(k, en) || x in t
  {
    var i := FirstIndex(KeysOf(t), k);
    var r := if i < 0 then t + [Entry(k, en)] else t[i := Entry(k, en)];
    assert KeysOf(r) == if i < 0 then KeysOf(t) + [k] else KeysOf(t);
    forall k' | k' != k
      ensures Lookup(r, k') == Lookup(t, k')
    {
      if i < 0 {
        FirstIndexAppend(KeysOf(t), k, k');
      }
      var j := FirstIndex(KeysOf(t), k');
      if j >= 0 {
        assert r[j] == t[j];
      }
    }
    r
  }

  /** Filing keeps the keys distinct. */
  lemma PutUnique(t: Table, k: Key, en: ElementNode)
    requires UniqueKeys(t)
    ensures UniqueKeys(Put(t, k, en))
  {
    var r := Put(t, k, en);
    forall i, j | 0 <= i < j < |r|
      ensures r[i].key != r[j].key
    {
      assert KeysOf(r)[i] == r[i].key && KeysOf(r)[j] == r[j].key;
    }
  }

  /** NodeTable[id].n: the node filed under a document id. */
  function Resolve(t: Table, id: string): Option<Handle> {
    match Lookup(t, Named(id))
    case None => None
    case Some(en) => en.n
  }

  /** The concept names of pitches: a MIDI value is named by "MIDIValue"
      and its number, and Undefined by the empty name. */
  function PitchName(p: Utility.Pitch): string {
    if p.MIDIValue? then "MIDIValue" + Decimal.IntToString(p.number) else ""
  }

  /** mica::named for a pitch: the MIDI value of a name PitchName gives
      for one of MIDIValue0..127, Undefined for any other text. */
  function NamedPitch(s: string): (p: Utility.Pitch)
    ensures p.MIDIValue? ==> 0 <= p.number <= 127 && s == PitchName(p)
  {
    if |s| > 9 && s[..9] == "MIDIValue" then
      var k := Decimal.ParseNat(s[9..]);
      if k.Some? && k.value <= 127 && Decimal.NatToString(k.value) == s[9..] then
        assert s == s[..9] + s[9..];
        Utility.MIDIValue(k.value)
      else Utility.Undefined
    else Utility.Undefined
  }

  /** A MIDI value's name reads back as that value. */
  lemma NamedPitchRoundTrip(k: int)
    requires 0 <= k <= 127
    ensures NamedPitch(PitchName(Utility.MIDIValue(k))) == Utility.MIDIValue(k)
  {
    var s := PitchName(Utility.MIDIValue(k));
    assert s[..9] == "MIDIValue" && s[9..] == Decimal.NatToString(k);
    Decimal.ParseNatToString(k);
  }

  // ---------------------------------------------------------------------
  // Stringed instruments (ReadStringedInstrument)
  // ---------------------------------------------------------------------

  /** The enumerators of InstrumentType and StaffDisplaySetting by their
      numeric values. */
  function TypeAt(i: int): Instruments.InstrumentType
    requires 0 <= i < 2
  {
    if i == 0 then Instruments.Guitar else Instruments.Bass
  }

  function TypeIndex(t: Instruments.InstrumentType): (i: int)
    ensures 0 <= i < 2 && TypeAt(i) == t
  {
    match t
    case Guitar => 0
    case Bass => 1
  }

  function DisplayAt(i: int): Instruments.DisplaySetting
    requires 0 <= i < 3
  {
    if i == 0 then Instruments.Standard else if i == 1 then Instruments.Tab else Instruments.StandardAndTab
  }

  function DisplayIndex(d: Instruments.DisplaySetting): (i: int)
    ensures 0 <= i < 3 && DisplayAt(i) == d
  {
    match d
    case Standard => 0
    case Tab => 1
    case StandardAndTab => 2
  }

  /** The guitar tuning a new StringedInstrument starts with. */
  function DefaultStrings(): seq<Instruments.InstrumentString> {
    Instruments.Tuned([64, 59, 55, 50, 45, 40], 19)
  }

  /** A freshly constructed StringedInstrument. */
  function DefaultInstrument(): Instruments.InstrumentValue {
    Instruments.InstrumentValue(Instruments.Guitar, 6, 19, DefaultStrings(), Instruments.Standard)
  }

  /** The string one child of a stringInstr element adds: a `string`
      element whose note names a pitch and whose semitones are not
      negative. */
  function StringOf(c: XNode): seq<Instruments.InstrumentString> {
    var note := NamedPitch(Attr(c, "note"));
    var semitones := Decimal.ToNumber(Attr(c, "semitones"));
    if c.Element? && c.name == "string" && note != Utility.Undefined && semitones >= 0 then
      [Instruments.MakeString(note, semitones)]
    else []
  }

  /** The strings the children of a stringInstr element add, in order. */
  function StringsOf(cs: seq<XNode>): seq<Instruments.InstrumentString> {
    if cs == [] then [] else StringsOf(cs[..|cs| - 1]) + StringOf(cs[|cs| - 1])
  }

  /** SetInstrumentType when the type index is in range. */
  function TypeSet(v: Instruments.InstrumentValue, t: int): Instruments.InstrumentValue {
    if 0 <= t < 2 then v.(instrumentType := TypeAt(t)) else v
  }

  /** SetDefaultNumberOfStrings when the count is within 4..8: the
      instrument takes it, and re-tunes, only when its type allows it. */
  function CountSet(v: Instruments.InstrumentValue, n: int): Instruments.InstrumentValue {
    if 4 <= n <= 8 && Instruments.IsStringNumberAvailable(v.instrumentType, n) then
      v.(defaultNumStrings := n,
         strings := Instruments.Tuned(Instruments.DefaultTuning(v.instrumentType, n), v.numSemitones))
    else v
  }

  /** SetNumSemitones when the count is not negative. */
  function SemitonesSet(v: Instruments.InstrumentValue, s: int): Instruments.InstrumentValue {
    if s >= 0 then v.(numSemitones := s) else v
  }

  /** SetDisplaySetting when the index is in range. */
  function DisplaySet(v: Instruments.InstrumentValue, d: int): Instruments.InstrumentValue {
    if 0 <= d < 3 then v.(displaySetting := DisplayAt(d)) else v
  }

  /** The instrument a stringInstr element's attributes configure, setter
      by setter, starting from a new StringedInstrument. */
  function Attributed(e: XNode): Instruments.InstrumentValue {
    DisplaySet(
      SemitonesSet(
        CountSet(TypeSet(DefaultInstrument(), Decimal.ToNumber(Attr(e, "type"))), Decimal.ToNumber(Attr(e, "strings"))),
        Decimal.ToNumber(Attr(e, "semitones"))),
      Decimal.ToNumber(Attr(e, "display")))
  }

  /** The instrument a stringInstr element makes: its attributes applied,
      then its strings replaced by those of its string children whenever
      it has any child at all. */
  function Configured(e: XNode): Instruments.InstrumentValue {
    if e.Element? && e.children != [] then Attributed(e).(strings := StringsOf(e.children)) else Attributed(e)
  }

  /** Strings read from a list of open pitches: the i-th string sounds the
      i-th pitch. */
  lemma {:induction false} TunedAt(opens: seq<int>, semitones: nat, i: int)
    requires 0 <= i < |opens|
    ensures Instruments.Tuned(opens, semitones)[i] == Instruments.InstrumentString(opens[i], semitones)
  {
    if i < |opens| - 1 {
      TunedAt(opens[..|opens| - 1], semitones, i);
    }
  }

  /** Every string lies within MIDIValue0..127. */
  predicate InMIDIRange(strings: seq<Instruments.InstrumentString>) {
    forall i :: 0 <= i < |strings| ==> 0 <= strings[i].midiNote <= 127
  }

  lemma {:induction false} StringsOfInRange(cs: seq<XNode>)
    ensures InMIDIRange(StringsOf(cs))
  {
    if cs != [] {
      StringsOfInRange(cs[..|cs| - 1]);
    }
  }

  lemma TuningInRange(t: Instruments.InstrumentType, n: int, semitones: nat)
    requires Instruments.IsStringNumberAvailable(t, n)
    ensures InMIDIRange(Instruments.Tuned(Instruments.DefaultTuning(t, n), semitones))
  {
    Instruments.DefaultTuningShape(t, n);
    forall i | 0 <= i < n {
      TunedAt(Instruments.DefaultTuning(t, n), semitones, i);
    }
  }

  /** Whatever the element says, the instrument read has a string count its
      type allows and strings that are all MIDI values: out-of-range
      attributes are never applied. */
  lemma ConfiguredValid(e: XNode)
    ensures Instruments.IsStringNumberAvailable(Configured(e).instrumentType, Configured(e).defaultNumStrings)
    ensures InMIDIRange(Configured(e).strings)
  {
    var v0 := TypeSet(DefaultInstrument(), Decimal.ToNumber(Attr(e, "type")));
    DefaultValid(Decimal.ToNumber(Attr(e, "type")));
    var v1 := CountSet(v0, Decimal.ToNumber(Attr(e, "strings")));
    CountSetValid(v0, Decimal.ToNumber(Attr(e, "strings")));
    var v := Attributed(e);
    assert v.instrumentType == v1.instrumentType && v.defaultNumStrings == v1.defaultNumStrings;
    assert v.strings == v1.strings;
    if e.Element? && e.children != [] {
      StringsOfInRange(e.children);
    }
  }

  /** A new instrument of either type has a string count its type allows
      and strings that are MIDI values. */
  lemma DefaultValid(t: int)
    ensures Instruments.IsStringNumberAvailable(TypeSet(DefaultInstrument(), t).instrumentType, 6)
    ensures TypeSet(DefaultInstrument(), t).defaultNumStrings == 6
    ensures InMIDIRange(TypeSet(DefaultInstrument(), t).strings)
  {
    forall i | 0 <= i < 6
      ensures 0 <= DefaultStrings()[i].midiNote <= 127
    {
      TunedAt([64, 59, 55, 50, 45, 40], 19, i);
    }
  }

  /** SetDefaultNumberOfStrings keeps the string count allowed and the
      strings MIDI values. */
  lemma CountSetValid(v: Instruments.InstrumentValue, n: int)
    requires Instruments.IsStringNumberAvailable(v.instrumentType, v.defaultNumStrings) && InMIDIRange(v.strings)
    ensures Instruments.IsStringNumberAvailable(CountSet(v, n).instrumentType, CountSet(v, n).defaultNumStrings)
    ensures InMIDIRange(CountSet(v, n).strings)
  {
    if 4 <= n <= 8 && Instruments.IsStringNumberAvailable(v.instrumentType, n) {
      TuningInRange(v.instrumentType, n, v.numSemitones);
    }
  }

  /** Each setting of the instrument read is the element's attribute when
      that is in range and the default otherwise; the strings are the
      element's string children when it has any child, and otherwise the
      tuning the string count set up. */
  lemma ConfiguredSettings(e: XNode)
    ensures Configured(e).instrumentType ==
      if 0 <= Decimal.ToNumber(Attr(e, "type")) < 2 then TypeAt(Decimal.ToNumber(Attr(e, "type"))) else Instruments.Guitar
    ensures Configured(e).defaultNumStrings ==
      if 4 <= Decimal.ToNumber(Attr(e, "strings")) <= 8
         && Instruments.IsStringNumberAvailable(Configured(e).instrumentType, Decimal.ToNumber(Attr(e, "strings")))
      then Decimal.ToNumber(Attr(e, "strings")) else 6
    ensures Configured(e).numSemitones ==
      if Decimal.ToNumber(Attr(e, "semitones")) >= 0 then Decimal.ToNumber(Attr(e, "semitones")) else 19
    ensures Configured(e).displaySetting ==
      if 0 <= Decimal.ToNumber(Attr(e, "display")) < 3 then DisplayAt(Decimal.ToNumber(Attr(e, "display")))
      else Instruments.Standard
    ensures e.Element? && e.children != [] ==> Configured(e).strings == StringsOf(e.children)
    ensures !(e.Element? && e.children != []) ==>
      Configured(e).strings ==
        if 4 <= Decimal.ToNumber(Attr(e, "strings")) <= 8
           && Instruments.IsStringNumberAvailable(Configured(e).instrumentType, Decimal.ToNumber(Attr(e, "strings")))
        then Instruments.Tuned(Instruments.DefaultTuning(Configured(e).instrumentType, Decimal.ToNumber(Attr(e, "strings"))), 19)
        else DefaultStrings()
  {
    assert Instruments.DefaultTuning(Instruments.Guitar, 6) == [64, 59, 55, 50, 45, 40];
  }

  // ---------------------------------------------------------------------
  // The elements Write emits for an instrument
  // ---------------------------------------------------------------------

  /** A number as operator<< prints it. */
  function Num(i: int): string {
    Decimal.IntToString(i)
  }

  /** `<string note=... semitones=.../>` for one string. */
  function StringElement(s: Instruments.InstrumentString): XNode {
    Element("string", [("note", PitchName(Utility.MIDIValue(s.midiNote))), ("semitones", Num(s.semitones))], [])
  }

  function StringElements(ss: seq<Instruments.InstrumentString>): (r: seq<XNode>)
    ensures |r| == |ss|
  {
    if ss == [] then [] else StringElements(ss[..|ss| - 1]) + [StringElement(ss[|ss| - 1])]
  }

  /** The stringInstr element Write emits for an instrument node. */
  function InstrumentElement(id: string, v: Instruments.InstrumentValue): XNode {
    Element("stringInstr",
            [("id", id), ("type", Num(TypeIndex(v.instrumentType))), ("strings", Num(v.defaultNumStrings)),
             ("semitones", Num(v.numSemitones)), ("display", Num(DisplayIndex(v.displaySetting)))],
            StringElements(v.strings))
  }

  /** One written string reads back as itself, when its pitch is a MIDI
      value. */
  lemma StringRoundTrip(x: Instruments.InstrumentString)
    requires 0 <= x.midiNote <= 127
    ensures StringOf(StringElement(x)) == [x]
  {
    var e := StringElement(x);
    assert Attr(e, "note") == PitchName(Utility.MIDIValue(x.midiNote));
    AttrSkip(e.attrs, "semitones");
    assert e.attrs[1..] == [("semitones", Num(x.semitones))];
    NamedPitchRoundTrip(x.midiNote);
    Decimal.ParseIntToString(x.semitones);
  }

  lemma StringsOfSnoc(cs: seq<XNode>, c: XNode)
    ensures StringsOf(cs + [c]) == StringsOf(cs) + StringOf(c)
  {
    assert (cs + [c])[..|cs|] == cs;
  }

  lemma Snoc<T>(s: seq<T>)
    requires s != []
    ensures s == s[..|s| - 1] + [s[|s| - 1]]
  {
  }

  lemma StringElementsSnoc(ss: seq<Instruments.InstrumentString>)
    requires ss != []
    ensures StringElements(ss) == StringElements(ss[..|ss| - 1]) + [StringElement(ss[|ss| - 1])]
  {
  }

  /** Reading back written string elements gives the strings, when their
      pitches are MIDI values. */
  lemma {:induction false} StringsRoundTrip(ss: seq<Instruments.InstrumentString>)
    requires InMIDIRange(ss)
    ensures StringsOf(StringElements(ss)) == ss
  {
    if ss != [] {
      var front, last := ss[..|ss| - 1], ss[|ss| - 1];
      StringElementsSnoc(ss);
      StringsOfSnoc(StringElements(front), StringElement(last));
      assert InMIDIRange(front) by {
        forall i | 0 <= i < |front|
          ensures 0 <= front[i].midiNote <= 127
        {
          assert front[i] == ss[i];
        }
      }
      StringsRoundTrip(front);
      StringRoundTrip(last);
      Snoc(ss);
    }
  }

  /** The attributes of a written instrument element, by name. */
  lemma InstrumentAttrs(id: string, v: Instruments.InstrumentValue)
    ensures Decimal.ToNumber(Attr(InstrumentElement(id, v), "type")) == TypeIndex(v.instrumentType)
    ensures Decimal.ToNumber(Attr(InstrumentElement(id, v), "strings")) == v.defaultNumStrings
    ensures Decimal.ToNumber(Attr(InstrumentElement(id, v), "semitones")) == v.numSemitones
    ensures Decimal.ToNumber(Attr(InstrumentElement(id, v), "display")) == DisplayIndex(v.displaySetting)
  {
    var a := InstrumentElement(id, v).attrs;
    var a1, a2, a3, a4 := a[1..], a[2..], a[3..], a[4..];
    assert a1 == a[1..] && a2 == a1[1..] && a3 == a2[1..] && a4 == a3[1..];
    assert a[0].0 == "id" && a1[0].0 == "type" && a2[0].0 == "strings";
    assert a3[0].0 == "semitones" && a4[0].0 == "display";
    assert "display"[0] != "strings"[0];
    AttrSkip(a, "type");
    AttrSkip(a, "strings");
    AttrSkip(a1, "strings");
    AttrSkip(a, "semitones");
    AttrSkip(a1, "semitones");
    AttrSkip(a2, "semitones");
    AttrSkip(a, "display");
    AttrSkip(a1, "display");
    AttrSkip(a2, "display");
    AttrSkip(a3, "display");
    Decimal.ParseIntToString(TypeIndex(v.instrumentType));
    Decimal.ParseIntToString(v.defaultNumStrings);
    Decimal.ParseIntToString(v.numSemitones);
    Decimal.ParseIntToString(DisplayIndex(v.displaySetting));
  }

  /** An instrument written and read back is the same instrument, provided
      its string count suits its type, it has at least one string and its
      strings are MIDI values. */
  lemma InstrumentRoundTrip(id: string, v: Instruments.InstrumentValue)
    requires Instruments.IsStringNumberAvailable(v.instrumentType, v.defaultNumStrings)
    requires v.strings != [] && InMIDIRange(v.strings)
    ensures Configured(InstrumentElement(id, v)) == v
  {
    InstrumentAttrs(id, v);
    StringsRoundTrip(v.strings);
  }

  /** An instrument without strings is written with no children, so it
      reads back with the default tuning for its type and string count
      instead. */
  lemma EmptyInstrumentRetuned(id: string, v: Instruments.InstrumentValue)
    requires Instruments.IsStringNumberAvailable(v.instrumentType, v.defaultNumStrings)
    requires v.strings == []
    ensures Configured(InstrumentElement(id, v)) ==
      v.(strings := Instruments.Tuned(Instruments.DefaultTuning(v.instrumentType, v.defaultNumStrings), 19))
    ensures Configured(InstrumentElement(id, v)).strings != []
  {
    InstrumentAttrs(id, v);
    Instruments.DefaultTuningShape(v.instrumentType, v.defaultNumStrings);
  }

  // ---------------------------------------------------------------------
  // First pass of Read: nodes and the node table
  // ---------------------------------------------------------------------

  /** What the first pass has built so far: the graph's node kinds and
      outgoing links, the node table, the next synthetic serial and the
      top. */
  datatype Built = Built(kinds: seq<NodeKind>, links: seq<seq<Link>>, table: Table, serial: nat,
                         top: Option<Handle>)

  /** Before the first pass: an empty graph and an empty table. */
  function Start(): Built {
    Built([], [], [], 0, None)
  }

  /** A new node of kind k with no links. */
  function Added(b: Built, k: NodeKind): Built {
    b.(kinds := b.kinds + [k], links := b.links + [[]])
  }

  /** A link of the given kind from a to c. */
  function Joined(b: Built, a: Handle, kind: LinkKind, c: Handle): Built {
    if a < |b.links| then b.(links := b.links[a := b.links[a] + [Link(kind, c)]]) else b
  }

  /** The id an element is filed under, and the serial after it: a
      missing id takes the next serial. */
  function KeyFor(c: XNode, serial: nat): Key {
    if Attr(c, "id") == "" then Synthetic(serial) else Named(Attr(c, "id"))
  }

  function SerialAfter(c: XNode, serial: nat): nat {
    if Attr(c, "id") == "" then serial + 1 else serial
  }

  /** NodeTable[key] = ElementNode(c, n). */
  function Filed(b: Built, key: Key, c: XNode, n: Option<Handle>): Built {
    b.(table := Put(b.table, key, ElementNode(c, n)))
  }

  /** ReadStringedInstrument, one child of a part element: a stringInstr
      element becomes an instrument node token-linked from the part. */
  function InstrumentRead(b: Built, part: Handle, c: XNode): Built {
    if c.Element? && c.name == "stringInstr" then
      Joined(Added(b, StringedInstrument(Configured(c))), part, TokenLink, |b.kinds|)
    else b
  }

  function InstrumentsRead(b: Built, part: Handle, cs: seq<XNode>): Built {
    if cs == [] then b else InstrumentRead(InstrumentsRead(b, part, cs[..|cs| - 1]), part, cs[|cs| - 1])
  }

  /** The note a note element makes. */
  function NoteKind(c: XNode): NodeKind {
    NoteNode(Attr(c, "position"), Attr(c, "modifier"))
  }

  /** ReadChord, one child of a chord element: every element is filed, a
      note element with a new note node linked from the chord and any
      other element with no node. */
  function NoteRead(b: Built, chord: Handle, c: XNode): Built {
    if !c.Element? then b
    else
      var key, b1 := KeyFor(c, b.serial), b.(serial := SerialAfter(c, b.serial));
      if c.name == "note" then
        Filed(Joined(Added(b1, NoteKind(c)), chord, NoteLink, |b.kinds|), key, c, Some(|b.kinds|))
      else Filed(b1, key, c, None)
  }

  function NotesRead(b: Built, chord: Handle, cs: seq<XNode>): Built {
    if cs == [] then b else NoteRead(NotesRead(b, chord, cs[..|cs| - 1]), chord, cs[|cs| - 1])
  }

  /** The key signature a key element makes: its key when it names one,
      else its key signature. */
  function KeyKind(c: XNode): NodeKind {
    if Attr(c, "key") != "" then KeySignatureToken(Attr(c, "key"), "")
    else KeySignatureToken("", Attr(c, "key-signature"))
  }

  /** The chord a chord element makes; an absent rhythmic attribute leaves
      the chord's default, held as the empty text. */
  function ChordKind(c: XNode): NodeKind {
    ChordToken(Attr(c, "duration"), Attr(c, "beat"), Attr(c, "instant"))
  }

  /** The token ReadIsland makes for a child element, None for a name it
      does not recognise. */
  function TokenKind(c: XNode): (r: Option<NodeKind>)
    ensures r.Some? ==> r.value.IsToken() && !r.value.StringedInstrument?
  {
    if !c.Element? then None
    else if c.name == "part" then Some(PartToken)
    else if c.name == "clef" then Some(ClefToken(Attr(c, "value")))
    else if c.name == "barline" then Some(BarlineToken(Attr(c, "value")))
    else if c.name == "meter" then Some(MeterToken(Attr(c, "value")))
    else if c.name == "key" then Some(KeyKind(c))
    else if c.name == "chord" then Some(ChordKind(c))
    else None
  }

  /** ReadIsland skips a chord element without an id. */
  predicate Skipped(c: XNode) {
    !c.Element? || (c.name == "chord" && Attr(c, "id") == "")
  }

  /** ReadIsland, one child of an island element: a recognised element
      becomes a token linked from the island (a part also reads its
      instruments, a chord its notes) and is filed afterwards; any other
      element is filed with no node. */
  function TokenRead(b: Built, isle: Handle, c: XNode): Built {
    if Skipped(c) then b
    else
      var key, b1 := KeyFor(c, b.serial), b.(serial := SerialAfter(c, b.serial));
      match TokenKind(c)
      case None => Filed(b1, key, c, None)
      case Some(k) =>
        var h := |b.kinds|;
        var b2 := Joined(Added(b1, k), isle, TokenLink, h);
        var b3 := if k.PartToken? then InstrumentsRead(b2, h, c.children)
                  else if k.ChordToken? then NotesRead(b2, h, c.children)
                  else b2;
        Filed(b3, key, c, Some(h))
  }

  function TokensRead(b: Built, isle: Handle, cs: seq<XNode>): Built {
    if cs == [] then b else TokenRead(TokensRead(b, isle, cs[..|cs| - 1]), isle, cs[|cs| - 1])
  }

  /** A top-level element Read turns into an island. */
  predicate IsIslandElement(c: XNode) {
    c.Element? && c.name == "island" && Attr(c, "id") != ""
  }

  /** Read's first loop, one top-level object: an island element with an
      id becomes an island node, filed before its children are read; the
      first one sets the top to whatever its id is filed under afterwards. */
  function IslandRead(b: Built, c: XNode): Built {
    if !IsIslandElement(c) then b
    else
      var id, h := Attr(c, "id"), |b.kinds|;
      var b1 := Filed(Added(b, Island), Named(id), c, Some(h));
      var b2 := TokensRead(b1, h, c.children);
      b2.(top := if b2.top.None? then Resolve(b2.table, id) else b2.top)
  }

  function IslandsRead(b: Built, cs: seq<XNode>): Built {
    if cs == [] then b else IslandRead(IslandsRead(b, cs[..|cs| - 1]), cs[|cs| - 1])
  }

  // ---------------------------------------------------------------------
  // Second pass of Read: links between the nodes the table names
  // ---------------------------------------------------------------------

  /** The graph as the second pass changes it: node kinds, outgoing links
      and the mesh links. */
  datatype Wired = Wired(kinds: seq<NodeKind>, links: seq<seq<Link>>, mesh: MeshLinks)

  /** The graph the first pass leaves: no mesh links at all. */
  function Unwired(b: Built): Wired {
    var none := Filled(None, |b.kinds|);
    Wired(b.kinds, b.links, MeshLinks(none, none, none, none))
  }

  /** AddLink with PartWiseLink: the first link at each end wins. */
  function AcrossTo(w: Wired, a: Handle, c: Handle): Wired {
    if a < |w.mesh.across| && c < |w.mesh.acrossFrom| then
      w.(mesh := w.mesh.(across := w.mesh.across[a := FirstWins(w.mesh.across[a], c)],
                         acrossFrom := w.mesh.acrossFrom[c := FirstWins(w.mesh.acrossFrom[c], a)]))
    else w
  }

  /** AddLink with InstantWiseLink. */
  function DownTo(w: Wired, a: Handle, c: Handle): Wired {
    if a < |w.mesh.down| && c < |w.mesh.downFrom| then
      w.(mesh := w.mesh.(down := w.mesh.down[a := FirstWins(w.mesh.down[a], c)],
                         downFrom := w.mesh.downFrom[c := FirstWins(w.mesh.downFrom[c], a)]))
    else w
  }

  /** AddLink with any other kind. */
  function LinkTo(w: Wired, a: Handle, kind: LinkKind, c: Handle): Wired {
    if a < |w.links| then w.(links := w.links[a := w.links[a] + [Link(kind, c)]]) else w
  }

  /** A new TieSpan node with no links. */
  function TieAdded(w: Wired): Wired {
    Wired(w.kinds + [TieSpan], w.links + [[]],
          MeshLinks(w.mesh.across + [None], w.mesh.acrossFrom + [None], w.mesh.down + [None], w.mesh.downFrom + [None]))
  }

  /** Read's second loop, one table entry. An entry without a node adds
      nothing. An island links across and down to the nodes its `across`
      and `down` ids resolve to. A chord whose `next` resolves gets a
      continuity and a voice link to it; a chord with no `next` whose
      `next-in-voice` resolves gets a voice link. A note whose `tied-to`
      resolves gets a new TieSpan float-linked from it and from the note it
      is tied to. An id that resolves to nothing adds nothing. */
  function Wire(w: Wired, t: Table, en: ElementNode): Wired {
    if en.n.None? || !en.e.Element? then w
    else
      var n, e := en.n.value, en.e;
      if e.name == "island" then
        var w1 := match Resolve(t, Attr(e, "across"))
                  case Some(a) => AcrossTo(w, n, a)
                  case None => w;
        match Resolve(t, Attr(e, "down"))
        case Some(d) => DownTo(w1, n, d)
        case None => w1
      else if e.name == "chord" then
        if Attr(e, "next") != "" then
          match Resolve(t, Attr(e, "next"))
          case Some(c) => LinkTo(LinkTo(w, n, ContinuityLink, c), n, VoiceLink, c)
          case None => w
        else if Attr(e, "next-in-voice") != "" then
          match Resolve(t, Attr(e, "next-in-voice"))
          case Some(c) => LinkTo(w, n, VoiceLink, c)
          case None => w
        else w
      else if e.name == "note" && Attr(e, "tied-to") != "" then
        match Resolve(t, Attr(e, "tied-to"))
        case Some(m) => LinkTo(LinkTo(TieAdded(w), n, FloatLink, |w.kinds|), m, FloatLink, |w.kinds|)
        case None => w
      else w
  }

  function WireAll(w: Wired, t: Table, es: seq<Entry>): Wired {
    if es == [] then w else Wire(WireAll(w, t, es[..|es| - 1]), t, es[|es| - 1].en)
  }

  /** The graph Read builds from the top-level objects of a document. */
  function ReadGraph(cs: seq<XNode>): Wired {
    WireAll(Unwired(IslandsRead(Start(), cs)), IslandsRead(Start(), cs).table, IslandsRead(Start(), cs).table)
  }

  // ---------------------------------------------------------------------
  // What the two passes promise
  // ---------------------------------------------------------------------

  /** Filing keeps the keys of the table distinct. */
  lemma FiledUnique(b: Built, key: Key, c: XNode, n: Option<Handle>)
    requires UniqueKeys(b.table)
    ensures UniqueKeys(Filed(b, key, c, n).table) && Filed(b, key, c, n).top == b.top
  {
    PutUnique(b.table, key, ElementNode(c, n));
  }

  /** Reading instruments files nothing. */
  lemma {:induction false} InstrumentsReadTable(b: Built, part: Handle, cs: seq<XNode>)
    ensures InstrumentsRead(b, part, cs).table == b.table && InstrumentsRead(b, part, cs).top == b.top
  {
    if cs != [] {
      InstrumentsReadTable(b, part, cs[..|cs| - 1]);
    }
  }

  lemma {:induction false} NotesReadUnique(b: Built, chord: Handle, cs: seq<XNode>)
    requires UniqueKeys(b.table)
    ensures UniqueKeys(NotesRead(b, chord, cs).table) && NotesRead(b, chord, cs).top == b.top
  {
    if cs != [] {
      var b0, c := NotesRead(b, chord, cs[..|cs| - 1]), cs[|cs| - 1];
      NotesReadUnique(b, chord, cs[..|cs| - 1]);
      if c.Element? {
        var key, b1 := KeyFor(c, b0.serial), b0.(serial := SerialAfter(c, b0.serial));
        if c.name == "note" {
          FiledUnique(Joined(Added(b1, NoteKind(c)), chord, NoteLink, |b0.kinds|), key, c, Some(|b0.kinds|));
        } else {
          FiledUnique(b1, key, c, None);
        }
      }
    }
  }

  /** One child of an island keeps the keys distinct and the top. */
  lemma TokenReadUnique(b: Built, isle: Handle, c: XNode)
    requires UniqueKeys(b.table)
    ensures UniqueKeys(TokenRead(b, isle, c).table) && TokenRead(b, isle, c).top == b.top
  {
    if !Skipped(c) {
      var key, b1 := KeyFor(c, b.serial), b.(serial := SerialAfter(c, b.serial));
      match TokenKind(c)
      case None =>
        FiledUnique(b1, key, c, None);
      case Some(k) =>
        var h := |b.kinds|;
        var b2 := Joined(Added(b1, k), isle, TokenLink, h);
        if k.PartToken? {
          InstrumentsReadTable(b2, h, c.children);
          FiledUnique(InstrumentsRead(b2, h, c.children), key, c, Some(h));
        } else if k.ChordToken? {
          NotesReadUnique(b2, h, c.children);
          FiledUnique(NotesRead(b2, h, c.children), key, c, Some(h));
        } else {
          FiledUnique(b2, key, c, Some(h));
        }
    }
  }

  lemma {:induction false} TokensReadUnique(b: Built, isle: Handle, cs: seq<XNode>)
    requires UniqueKeys(b.table)
    ensures UniqueKeys(TokensRead(b, isle, cs).table) && TokensRead(b, isle, cs).top == b.top
  {
    if cs != [] {
      TokensReadUnique(b, isle, cs[..|cs| - 1]);
      TokenReadUnique(TokensRead(b, isle, cs[..|cs| - 1]), isle, cs[|cs| - 1]);
    }
  }

  /** The first pass files every element under one key: the node table
      is a map from ids to element nodes. Once the top is set, later
      islands leave it alone. */
  lemma {:induction false} IslandsReadUnique(b: Built, cs: seq<XNode>)
    requires UniqueKeys(b.table)
    ensures UniqueKeys(IslandsRead(b, cs).table)
    ensures b.top.Some? ==> IslandsRead(b, cs).top == b.top
  {
    if cs != [] {
      var b0, c := IslandsRead(b, cs[..|cs| - 1]), cs[|cs| - 1];
      IslandsReadUnique(b, cs[..|cs| - 1]);
      if IsIslandElement(c) {
        var b1 := Filed(Added(b0, Island), Named(Attr(c, "id")), c, Some(|b0.kinds|));
        FiledUnique(Added(b0, Island), Named(Attr(c, "id")), c, Some(|b0.kinds|));
        TokensReadUnique(b1, |b0.kinds|, c.children);
      }
    }
  }

  /** A document with no island element with an id reads as nothing: no
      node, no entry and no top. */
  lemma {:induction false} IslandsReadNone(b: Built, cs: seq<XNode>)
    requires forall i :: 0 <= i < |cs| ==> !IsIslandElement(cs[i])
    ensures IslandsRead(b, cs) == b
  {
    if cs != [] {
      IslandsReadNone(b, cs[..|cs| - 1]);
    }
  }

  /** The first island element with an id sets the top to whatever its
      id is filed under once the island's children are read: its own
      node, unless a child reuses the id. */
  lemma FirstIslandTop(b: Built, c: XNode)
    requires b.top.None? && UniqueKeys(b.table) && IsIslandElement(c)
    ensures IslandRead(b, c).top == Resolve(IslandRead(b, c).table, Attr(c, "id"))
  {
    var b1 := Filed(Added(b, Island), Named(Attr(c, "id")), c, Some(|b.kinds|));
    FiledUnique(Added(b, Island), Named(Attr(c, "id")), c, Some(|b.kinds|));
    TokensReadUnique(b1, |b.kinds|, c.children);
  }

  /** One entry of the second pass keeps every node and adds at most a
      TieSpan. */
  lemma WireTies(w: Wired, t: Table, en: ElementNode)
    ensures Wire(w, t, en).kinds == w.kinds || Wire(w, t, en).kinds == w.kinds + [TieSpan]
  {
  }

  /** The second pass keeps the nodes of the first and adds only
      TieSpans. */
  lemma {:induction false} WireAllTies(w: Wired, t: Table, es: seq<Entry>)
    ensures |w.kinds| <= |WireAll(w, t, es).kinds|
    ensures WireAll(w, t, es).kinds[..|w.kinds|] == w.kinds
    ensures forall i :: |w.kinds| <= i < |WireAll(w, t, es).kinds| ==> WireAll(w, t, es).kinds[i] == TieSpan
  {
    if es != [] {
      var w0 := WireAll(w, t, es[..|es| - 1]);
      WireAllTies(w, t, es[..|es| - 1]);
      WireTies(w0, t, es[|es| - 1].en);
      var k := WireAll(w, t, es).kinds;
      if k != w0.kinds {
        assert k[..|w.kinds|] == w0.kinds[..|w.kinds|];
      }
    }
  }

  /** Read's graph: the nodes of the first pass, then TieSpans only. */
  lemma ReadGraphNodes(cs: seq<XNode>)
    ensures |IslandsRead(Start(), cs).kinds| <= |ReadGraph(cs).kinds|
    ensures ReadGraph(cs).kinds[..|IslandsRead(Start(), cs).kinds|] == IslandsRead(Start(), cs).kinds
    ensures forall i :: |IslandsRead(Start(), cs).kinds| <= i < |ReadGraph(cs).kinds| ==> ReadGraph(cs).kinds[i] == TieSpan
  {
    var b := IslandsRead(Start(), cs);
    WireAllTies(Unwired(b), b.table, b.table);
  }

  // ---------------------------------------------------------------------
  // Read, imperatively
  // ---------------------------------------------------------------------

  /** Every node the table names is a node of a graph with n nodes. */
  predicate Within(t: Table, n: nat) {
    forall x :: x in t && x.en.n.Some? ==> x.en.n.value < n
  }

  /** The graph holds what the first pass has built: its kinds, links and
      top, and no mesh links yet. */
  ghost predicate Holds(g: MusicGraph, b: Built)
    reads g
  {
    g.Valid() && WiredOf(g) == Unwired(b) && g.top == b.top
  }

  /** ... and the table and serial are the built ones, the table naming
      only nodes of the graph. */
  ghost predicate Mirror(g: MusicGraph, b: Built, table: Table, serial: nat)
    reads g
  {
    Holds(g, b) && table == b.table && serial == b.serial && Within(table, |b.kinds|)
  }

  /** The graph as the second pass sees it. */
  ghost function WiredOf(g: MusicGraph): Wired
    reads g
  {
    Wired(g.kinds, g.links, MeshLinks(g.across, g.acrossFrom, g.down, g.downFrom))
  }

  /** AddNode during the first pass. */
  method AddBare(g: MusicGraph, k: NodeKind, ghost b: Built) returns (h: Handle)
    requires Holds(g, b)
    modifies g
    ensures Holds(g, Added(b, k)) && h == |b.kinds|
  {
    h := g.AddNode(k);
    FilledStep<Option<Handle>>(None, |b.kinds|);
  }

  /** AddLink during the first pass. */
  method LinkBare(g: MusicGraph, a: Handle, kind: LinkKind, c: Handle, ghost b: Built)
    requires Holds(g, b) && a < |b.kinds| && c < |b.kinds|
    modifies g
    ensures Holds(g, Joined(b, a, kind, c))
  {
    g.AddLink(a, kind, c);
  }

  /** The settings of ReadStringedInstrument: each attribute in range
      goes through its setter. */
  method Configure(si: Instruments.StringedInstrument, c: XNode)
    requires si.Value() == DefaultInstrument()
    modifies si
    ensures si.Value() == Attributed(c)
  {
    var typeIndex := Decimal.ToNumber(Attr(c, "type"));
    if 0 <= typeIndex < 2 {
      si.SetInstrumentType(TypeAt(typeIndex));
    }
    assert si.Value() == TypeSet(DefaultInstrument(), typeIndex);
    var numStrings := Decimal.ToNumber(Attr(c, "strings"));
    if 4 <= numStrings <= 8 {
      var accepted := si.SetDefaultNumberOfStrings(numStrings);
    }
    assert si.Value() == CountSet(TypeSet(DefaultInstrument(), typeIndex), numStrings);
    var semitones := Decimal.ToNumber(Attr(c, "semitones"));
    if semitones >= 0 {
      si.SetNumSemitones(semitones);
    }
    var displayIndex := Decimal.ToNumber(Attr(c, "display"));
    if 0 <= displayIndex < 3 {
      si.SetDisplaySetting(DisplayAt(displayIndex));
    }
  }

  /** ReadStringedInstrument, one child of a stringInstr element: a
      string element with a defined note and semitones not negative adds
      a string. */
  method AddStringOf(si: Instruments.StringedInstrument, stringE: XNode)
    modifies si
    ensures si.Value() == old(si.Value()).(strings := old(si.strings) + StringOf(stringE))
  {
    if stringE.Element? && stringE.name == "string" {
      var note := NamedPitch(Attr(stringE, "note"));
      var semitones := Decimal.ToNumber(Attr(stringE, "semitones"));
      if note != Utility.Undefined && semitones >= 0 {
        si.AddString(note, semitones);
      }
    }
  }

  /** The strings of ReadStringedInstrument: each string child is added
      in turn. */
  method AddStrings(si: Instruments.StringedInstrument, objects: seq<XNode>)
    requires si.strings == []
    modifies si
    ensures si.Value() == old(si.Value()).(strings := StringsOf(objects))
  {
    var s := 0;
    while s < |objects|
      invariant 0 <= s <= |objects|
      invariant si.Value() == old(si.Value()).(strings := StringsOf(objects[..s]))
    {
      AddStringOf(si, objects[s]);
      StringsOfSnoc(objects[..s], objects[s]);
      assert objects[..s + 1] == objects[..s] + [objects[s]];
      s := s + 1;
    }
    assert objects[..s] == objects;
  }

  /** ReadStringedInstrument, the instrument of one stringInstr element:
      a new StringedInstrument configured through its setters. */
  method ReadInstrument(c: XNode) returns (v: Instruments.InstrumentValue)
    requires c.Element?
    ensures v == Configured(c)
  {
    var si := new Instruments.StringedInstrument.Default();
    assert si.Value() == DefaultInstrument();
    Configure(si, c);
    var objects := c.children;
    if |objects| > 0 {
      si.RemoveAllStrings();
      AddStrings(si, objects);
    }
    v := si.Value();
  }

  /** ReadStringedInstrument: every stringInstr child of a part element
      becomes an instrument token-linked from the part. */
  method ReadStringedInstrument(g: MusicGraph, part: Handle, cs: seq<XNode>, ghost b: Built)
    requires Holds(g, b) && part < |b.kinds|
    modifies g
    ensures Holds(g, InstrumentsRead(b, part, cs)) && |g.kinds| >= |b.kinds|
    ensures InstrumentsRead(b, part, cs).table == b.table && InstrumentsRead(b, part, cs).serial == b.serial
  {
    var p := 0;
    while p < |cs|
      invariant 0 <= p <= |cs|
      invariant Holds(g, InstrumentsRead(b, part, cs[..p])) && |g.kinds| >= |b.kinds|
      invariant InstrumentsRead(b, part, cs[..p]).table == b.table
      invariant InstrumentsRead(b, part, cs[..p]).serial == b.serial
    {
      ghost var before := InstrumentsRead(b, part, cs[..p]);
      var siE := cs[p];
      if siE.Element? && siE.name == "stringInstr" {
        var v := ReadInstrument(siE);
        var si := AddBare(g, StringedInstrument(v), before);
        LinkBare(g, part, TokenLink, si, Added(before, StringedInstrument(v)));
      }
      assert cs[..p + 1][..p] == cs[..p];
      p := p + 1;
    }
    assert cs[..p] == cs;
  }

  /** ReadChord, one child: an element is filed, under a synthetic id when
      it has none; a note element also becomes a note linked from the
      chord. */
  method ReadNote(g: MusicGraph, chord: Handle, e: XNode, table: Table, serial: nat, ghost b: Built)
    returns (table': Table, serial': nat)
    requires Mirror(g, b, table, serial) && chord < |b.kinds|
    modifies g
    ensures Mirror(g, NoteRead(b, chord, e), table', serial') && |g.kinds| >= |b.kinds|
  {
    table', serial' := table, serial;
    if e.Element? {
      var nodeID := KeyFor(e, serial');
      serial' := SerialAfter(e, serial');
      ghost var b1 := b.(serial := serial');
      var n: Option<Handle> := None;
      if e.name == "note" {
        var nn := AddBare(g, NoteKind(e), b1);
        LinkBare(g, chord, NoteLink, nn, Added(b1, NoteKind(e)));
        n := Some(nn);
      }
      table' := Put(table', nodeID, ElementNode(e, n));
    }
  }

  /** ReadChord: every child of a chord element in turn. */
  method ReadChord(g: MusicGraph, chord: Handle, cs: seq<XNode>, table: Table, serial: nat, ghost b: Built)
    returns (table': Table, serial': nat)
    requires Mirror(g, b, table, serial) && chord < |b.kinds|
    modifies g
    ensures Mirror(g, NotesRead(b, chord, cs), table', serial') && |g.kinds| >= |b.kinds|
  {
    table', serial' := table, serial;
    var i := 0;
    while i < |cs|
      invariant 0 <= i <= |cs|
      invariant Mirror(g, NotesRead(b, chord, cs[..i]), table', serial') && |g.kinds| >= |b.kinds|
    {
      table', serial' := ReadNote(g, chord, cs[i], table', serial', NotesRead(b, chord, cs[..i]));
      assert cs[..i + 1][..i] == cs[..i];
      i := i + 1;
    }
    assert cs[..i] == cs;
  }

  /** ReadIsland, one child: a chord without an id is skipped; any other
      element is filed, under a synthetic id when it has none, after the
      token it makes (if any) is linked from the island and has read its
      own children. */
  method ReadToken(g: MusicGraph, isle: Handle, c: XNode, table: Table, serial: nat, ghost b: Built)
    returns (table': Table, serial': nat)
    requires Mirror(g, b, table, serial) && isle < |b.kinds|
    modifies g
    ensures Mirror(g, TokenRead(b, isle, c), table', serial') && |g.kinds| >= |b.kinds|
  {
    table', serial' := table, serial;
    if Skipped(c) {
      return;
    }
    var nodeID := KeyFor(c, serial');
    serial' := SerialAfter(c, serial');
    ghost var b1 := b.(serial := serial');
    var n: Option<Handle> := None;
    var kind := TokenKind(c);
    if kind.Some? {
      var k := kind.value;
      var h := AddBare(g, k, b1);
      LinkBare(g, isle, TokenLink, h, Added(b1, k));
      ghost var b2 := Joined(Added(b1, k), isle, TokenLink, h);
      if k.PartToken? {
        ReadStringedInstrument(g, h, c.children, b2);
      } else if k.ChordToken? {
        table', serial' := ReadChord(g, h, c.children, table', serial', b2);
      }
      n := Some(h);
    }
    table' := Put(table', nodeID, ElementNode(c, n));
  }

  /** ReadIsland: every child of an island element in turn. */
  method ReadIsland(g: MusicGraph, isle: Handle, cs: seq<XNode>, table: Table, serial: nat, ghost b: Built)
    returns (table': Table, serial': nat)
    requires Mirror(g, b, table, serial) && isle < |b.kinds|
    modifies g
    ensures Mirror(g, TokensRead(b, isle, cs), table', serial') && |g.kinds| >= |b.kinds|
  {
    table', serial' := table, serial;
    var i := 0;
    while i < |cs|
      invariant 0 <= i <= |cs|
      invariant Mirror(g, TokensRead(b, isle, cs[..i]), table', serial') && |g.kinds| >= |b.kinds|
    {
      table', serial' := ReadToken(g, isle, cs[i], table', serial', TokensRead(b, isle, cs[..i]));
      assert cs[..i + 1][..i] == cs[..i];
      i := i + 1;
    }
    assert cs[..i] == cs;
  }

  /** Read's first loop, one top-level object: an island element with an
      id becomes an island node and is filed, then its children are read,
      and the first island sets the top. */
  method ReadTopLevel(g: MusicGraph, c: XNode, table: Table, serial: nat, ghost b: Built)
    returns (table': Table, serial': nat)
    requires Mirror(g, b, table, serial)
    modifies g
    ensures Mirror(g, IslandRead(b, c), table', serial')
  {
    table', serial' := table, serial;
    if !IsIslandElement(c) {
      return;
    }
    var nodeID := Attr(c, "id");
    var isle := AddBare(g, Island, b);
    table' := Put(table', Named(nodeID), ElementNode(c, Some(isle)));
    ghost var b1 := Filed(Added(b, Island), Named(nodeID), c, Some(isle));
    table', serial' := ReadIsland(g, isle, c.children, table', serial', b1);
    if g.top.None? {
      g.SetTop(Resolve(table', nodeID));
    }
  }

  /** The objects under a document's root. */
  function Objects(root: XNode): seq<XNode> {
    if root.Element? then root.children else []
  }

  /** Read's first loop over the top-level objects. */
  method ReadIslands(g: MusicGraph, cs: seq<XNode>) returns (table: Table, serial: nat)
    requires Holds(g, Start())
    modifies g
    ensures Mirror(g, IslandsRead(Start(), cs), table, serial)
  {
    table, serial := [], 0;
    var i := 0;
    while i < |cs|
      invariant 0 <= i <= |cs|
      invariant Mirror(g, IslandsRead(Start(), cs[..i]), table, serial)
    {
      table, serial := ReadTopLevel(g, cs[i], table, serial, IslandsRead(Start(), cs[..i]));
      assert cs[..i + 1][..i] == cs[..i];
      i := i + 1;
    }
    assert cs[..i] == cs;
  }

  /** Read's second loop, an island entry: across and down links. */
  method LinkIsland(g: MusicGraph, t: Table, n: Handle, e: XNode)
    requires g.Valid() && Within(t, |g.kinds|) && n < |g.kinds| && e.Element? && e.name == "island"
    modifies g
    ensures g.Valid() && WiredOf(g) == Wire(old(WiredOf(g)), t, ElementNode(e, Some(n)))
    ensures |g.kinds| == old(|g.kinds|) && g.top == old(g.top)
  {
    var across := Resolve(t, Attr(e, "across"));
    if across.Some? {
      g.AddAcross(n, across.value);
    }
    var down := Resolve(t, Attr(e, "down"));
    if down.Some? {
      g.AddDown(n, down.value);
    }
  }

  /** Read's second loop, a chord entry: continuity and voice links. */
  method LinkChord(g: MusicGraph, t: Table, n: Handle, e: XNode)
    requires g.Valid() && Within(t, |g.kinds|) && n < |g.kinds| && e.Element? && e.name == "chord"
    modifies g
    ensures g.Valid() && WiredOf(g) == Wire(old(WiredOf(g)), t, ElementNode(e, Some(n)))
    ensures |g.kinds| == old(|g.kinds|) && g.top == old(g.top)
  {
    if Attr(e, "next") != "" {
      var next := Resolve(t, Attr(e, "next"));
      if next.Some? {
        g.AddLink(n, ContinuityLink, next.value);
        g.AddLink(n, VoiceLink, next.value);
      }
    } else if Attr(e, "next-in-voice") != "" {
      var next := Resolve(t, Attr(e, "next-in-voice"));
      if next.Some? {
        g.AddLink(n, VoiceLink, next.value);
      }
    }
  }

  /** Read's second loop, a note entry: a tie to the note it is tied to. */
  method LinkNote(g: MusicGraph, t: Table, n: Handle, e: XNode)
    requires g.Valid() && Within(t, |g.kinds|) && n < |g.kinds| && e.Element? && e.name == "note"
    modifies g
    ensures g.Valid() && WiredOf(g) == Wire(old(WiredOf(g)), t, ElementNode(e, Some(n)))
    ensures |g.kinds| >= old(|g.kinds|) && g.top == old(g.top)
  {
    if Attr(e, "tied-to") != "" {
      var tiedTo := Resolve(t, Attr(e, "tied-to"));
      if tiedTo.Some? {
        var ts := g.AddNode(TieSpan);
        g.AddLink(n, FloatLink, ts);
        g.AddLink(tiedTo.value, FloatLink, ts);
      }
    }
  }

  /** Read's second loop, one table entry: the links Wire describes. */
  method LinkEntry(g: MusicGraph, t: Table, en: ElementNode)
    requires g.Valid() && Within(t, |g.kinds|) && (en.n.Some? ==> en.n.value < |g.kinds|)
    modifies g
    ensures g.Valid() && WiredOf(g) == Wire(old(WiredOf(g)), t, en)
    ensures |g.kinds| >= old(|g.kinds|) && g.top == old(g.top)
  {
    if en.n.None? || !en.e.Element? {
      return;
    }
    if en.e.name == "island" {
      LinkIsland(g, t, en.n.value, en.e);
    } else if en.e.name == "chord" {
      LinkChord(g, t, en.n.value, en.e);
    } else if en.e.name == "note" {
      LinkNote(g, t, en.n.value, en.e);
    }
  }

  /** Read's second loop over every entry of the table, in table order. */
  method LinkAll(g: MusicGraph, t: Table)
    requires g.Valid() && Within(t, |g.kinds|)
    modifies g
    ensures g.Valid() && WiredOf(g) == WireAll(old(WiredOf(g)), t, t) && g.top == old(g.top)
  {
    var i := 0;
    while i < |t|
      invariant 0 <= i <= |t|
      invariant g.Valid() && Within(t, |g.kinds|) && g.top == old(g.top)
      invariant WiredOf(g) == WireAll(old(WiredOf(g)), t, t[..i])
    {
      assert t[i] in t;
      LinkEntry(g, t, t[i].en);
      assert t[..i + 1][..i] == t[..i];
      i := i + 1;
    }
    assert t[..i] == t;
  }

  /** XML::Read: the graph is cleared; a document that does not parse, or
      has no root, is refused; otherwise the islands and their tokens are
      read and then linked. */
  method Read(g: MusicGraph, d: Document) returns (ok: bool)
    modifies g
    ensures g.Valid() && (ok <==> d.Parsed?)
    ensures !ok ==> g.kinds == [] && g.top.None?
    ensures ok ==> g.top == IslandsRead(Start(), Objects(d.root)).top
    ensures ok ==> WiredOf(g) == ReadGraph(Objects(d.root))
  {
    g.Clear();
    if !d.Parsed? {
      return false;
    }
    assert WiredOf(g) == Unwired(Start());
    var table, serial := ReadIslands(g, Objects(d.root));
    LinkAll(g, table);
    return true;
  }
}
