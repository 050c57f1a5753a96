/** Context-less conversions of the modern engraver: rhythm values
    (prim::Ratio, modelled by Dafny's exact `real`), staff line/space
    indices and the note-name and MIDI-number tables. */
module Utility {

  // ---------------------------------------------------------------------
  // Powers of two and rhythm values
  // ---------------------------------------------------------------------

  /** 2^k for every integer k, as an exact rational. */
  function Pow2(k: int): (r: real)
    ensures r > 0.0
    decreases if k < 0 then -k else k
  {
    if k == 0 then 1.0
    else if k > 0 then 2.0 * Pow2(k - 1)
    else Pow2(k + 1) / 2.0
  }

  lemma Pow2Succ(k: int)
    ensures Pow2(k + 1) == 2.0 * Pow2(k)
    decreases if k < 0 then -k else k
  {
    if k < -1 {
      Pow2Succ(k + 1);
    }
  }

  lemma {:induction false} Pow2Monotone(j: int, k: int)
    requires j <= k
    ensures Pow2(j) <= Pow2(k)
    decreases k - j
  {
    if j < k {
      Pow2Monotone(j, k - 1);
      Pow2Succ(k - 1);
    }
  }

  /** x halved n times. */
  function Halved(x: real, n: nat): real {
    if n == 0 then x else Halved(x, n - 1) / 2.0
  }

  lemma {:induction false} HalvedPow2(k: int, n: nat)
    ensures Halved(Pow2(k), n) == Pow2(k - n)
  {
    if n > 0 {
      HalvedPow2(k, n - 1);
      Pow2Succ(k - n);
    }
  }

  lemma {:induction false} Pow2AtLeast(n: nat)
    ensures Pow2(n) >= (n + 1) as real
  {
    if n > 0 {
      Pow2AtLeast(n - 1);
    }
  }

  lemma {:induction false} Pow2Inverse(n: int)
    requires n >= 0
    ensures Pow2(-n) * Pow2(n) == 1.0
  {
    if n > 0 {
      Pow2Inverse(n - 1);
      HalfDouble(Pow2(-(n - 1)), Pow2(n - 1), Pow2(-n), Pow2(n));
    }
  }

  lemma HalfDouble(x: real, y: real, x2: real, y2: real)
    requires x * y == 1.0 && x2 == x / 2.0 && y2 == 2.0 * y
    ensures x2 * y2 == 1.0
  {
    var p := x * y;
    assert x2 * y2 == p;
  }

  /** Some power of two lies below any positive c. */
  lemma PowerOfTwoBelow(c: real) returns (m: int)
    requires c > 0.0
    ensures Pow2(m) <= c
  {
    var n := (1.0 / c).Floor + 1;
    Pow2AtLeast(n);
    Pow2Inverse(n);
    ReciprocalBelow(c, Pow2(n), Pow2(-n), n);
    m := -n;
  }

  lemma ReciprocalBelow(c: real, p: real, q: real, n: int)
    requires c > 0.0 && n == (1.0 / c).Floor + 1 && p >= (n + 1) as real
    requires q * p == 1.0
    ensures q <= c
  {
    var x := 1.0 / c;
    assert p > x;
    var cx, cp := c * x, c * p;
    assert cx == 1.0;
    MulStrict(c, p, x);
    assert cp > 1.0;
    if q > c {
      MulStrict(p, q, c);
      assert false;
    }
  }

  lemma MulStrict(c: real, p: real, x: real)
    requires c > 0.0 && p > x
    ensures c * p > c * x
  {
  }

  ghost predicate IsPowerOfTwo(r: real) {
    exists k :: r == Pow2(k)
  }

  /** b is the undotted value of c: the power of two with b <= c < 2b. */
  ghost predicate IsUndottedValueOf(c: real, b: real) {
    IsPowerOfTwo(b) && b <= c < 2.0 * b
  }

  /** A power of two below c is never above the undotted value of c, so the
      undotted value is the largest power of two that is at most c. */
  lemma UndottedIsLargest(c: real, j: int, k: int)
    requires Pow2(k) <= c < 2.0 * Pow2(k)
    requires Pow2(j) <= c
    ensures Pow2(j) <= Pow2(k)
  {
    if j > k {
      Pow2Monotone(k + 1, j);
      Pow2Succ(k);
    } else {
      Pow2Monotone(j, k);
    }
  }

  lemma UndottedUnique(c: real, b1: real, b2: real)
    requires IsUndottedValueOf(c, b1) && IsUndottedValueOf(c, b2)
    ensures b1 == b2
  {
    var k1 :| b1 == Pow2(k1);
    var k2 :| b2 == Pow2(k2);
    UndottedIsLargest(c, k1, k2);
    UndottedIsLargest(c, k2, k1);
  }

  /** Utility::GetUndottedValue: round a positive duration down to a power
      of two. (For c <= 0 the source's second loop never ends, hence the
      precondition.) */
  method GetUndottedValue(c: real) returns (value: real)
    requires c > 0.0
    ensures IsUndottedValueOf(c, value)
    ensures forall k :: Pow2(k) <= c ==> Pow2(k) <= value
  {
    ghost var k := 0;
    value := 1.0;
    while value < c
      invariant k >= 0 && value == Pow2(k)
      decreases c.Floor - k
    {
      Pow2AtLeast(k);
      Pow2Succ(k);
      value := value * 2.0;
      k := k + 1;
    }
    ghost var m := PowerOfTwoBelow(c);
    if m > k {
      Pow2Monotone(k + 1, m);
      Pow2Succ(k);
    }
    while value > c
      invariant value == Pow2(k) && c < 2.0 * value
      invariant m <= k
      decreases k - m
    {
      if k == m { assert false; }
      Pow2Succ(k - 1);
      value := value / 2.0;
      k := k - 1;
    }
    assert value == Pow2(k);
    forall j | Pow2(j) <= c ensures Pow2(j) <= value {
      UndottedIsLargest(c, j, k);
    }
  }

  /** The duration of a note with undotted value `b` and `i` dots:
      b + b/2 + ... + b/2^i. */
  function DotValue(b: real, i: nat): real {
    2.0 * b - Halved(b, i)
  }

  lemma {:induction false} HalvedBounds(b: real, i: nat, j: nat)
    requires b > 0.0 && i < j
    ensures 0.0 < Halved(b, j) < Halved(b, i) <= b
    decreases j
  {
    if j > i + 1 {
      HalvedBounds(b, i, j - 1);
    } else if i > 0 {
      HalvedBounds(b, i - 1, i);
    }
  }

  lemma DotStep(b: real, t: real, h: real)
    requires b * t == h
    ensures b * (t * 0.5) == h / 2.0
    ensures b * (2.0 - t * 0.5) == 2.0 * b - h / 2.0
  {
    var bt := b * t;
    assert b * (t * 0.5) == bt * 0.5;
    assert b * (2.0 - t * 0.5) == 2.0 * b - bt * 0.5;
  }

  /** Utility::CountDots: 0 for a power of two, the least dot count i <=
      maxDots whose dotted value is the duration, otherwise -1. */
  method CountDots(duration: real, maxDots: int) returns (dots: int)
    requires duration > 0.0
    ensures dots == 0 <==> IsPowerOfTwo(duration)
    ensures dots == -1 || dots == 0 || 1 <= dots <= maxDots
    ensures dots > 0 ==> forall b :: IsUndottedValueOf(duration, b) ==>
      duration == DotValue(b, dots) && forall i :: 1 <= i < dots ==> duration != DotValue(b, i)
    ensures dots == -1 ==> forall b :: IsUndottedValueOf(duration, b) ==>
      forall i :: 1 <= i <= maxDots ==> duration != DotValue(b, i)
  {
    var base := GetUndottedValue(duration);
    if base == duration {
      return 0;
    }
    if IsPowerOfTwo(duration) {
      var k :| duration == Pow2(k);
      Pow2Succ(k);
      assert IsUndottedValueOf(duration, duration);
      UndottedUnique(duration, base, duration);
      assert false;
    }
    var t := 1.0;
    var i := 1;
    while i <= maxDots
      invariant 1 <= i
      invariant base * t == Halved(base, i - 1)
      invariant forall j :: 1 <= j < i ==> duration != DotValue(base, j)
    {
      DotStep(base, t, Halved(base, i - 1));
      t := t * 0.5;
      var c := base * (2.0 - t);
      if c == duration {
        forall b | IsUndottedValueOf(duration, b) ensures b == base {
          UndottedUnique(duration, b, base);
        }
        return i;
      }
      i := i + 1;
    }
    forall b | IsUndottedValueOf(duration, b) ensures b == base {
      UndottedUnique(duration, b, base);
    }
    return -1;
  }

  /** Adding dots to a power of two keeps it as the undotted value, and
      different dot counts give different durations: the value CountDots
      inverts. */
  lemma DottedValueRoundTrip(k: int, i: nat, j: nat)
    requires i != j
    ensures IsUndottedValueOf(DotValue(Pow2(k), i), Pow2(k))
    ensures DotValue(Pow2(k), i) != DotValue(Pow2(k), j)
  {
    var b := Pow2(k);
    assert IsPowerOfTwo(b) by { assert b == Pow2(k); }
    if i < j {
      HalvedBounds(b, i, j);
    } else {
      HalvedBounds(b, j, i);
    }
    if i == 0 {
      assert Halved(b, i) == b;
    } else {
      HalvedBounds(b, 0, i);
    }
  }

  /** Utility::CountFlags: the number of doublings that bring the undotted
      value up to a quarter. */
  method CountFlags(duration: real) returns (flags: int)
    requires duration > 0.0
    ensures flags >= 0
    ensures flags == 0 <==> duration >= 0.25
    ensures flags > 0 ==> IsUndottedValueOf(duration, Halved(0.25, flags))
  {
    var base := GetUndottedValue(duration);
    ghost var b0 := base;
    ghost var k :| base == Pow2(k);
    flags := 0;
    while base < 0.25
      invariant flags >= 0 && base == Pow2(k + flags)
      invariant flags > 0 ==> k + flags <= -2
      decreases -2 - k - flags
    {
      if k + flags >= -2 { Pow2Monotone(-2, k + flags); }
      Pow2Succ(k + flags);
      flags := flags + 1;
      base := base * 2.0;
    }
    assert Pow2(-2) == 0.25;
    if flags > 0 {
      if k + flags < -2 {
        Pow2Monotone(k + flags + 1, -2);
        Pow2Succ(k + flags);
      }
      assert k == -2 - flags;
      HalvedPow2(-2, flags);
      Pow2Succ(k);
      Pow2Monotone(k + 1, -2);
    }
  }

  /** The notehead glyphs of the cache that GetNotehead selects from. */
  datatype Notehead = QuarterNoteNoStem | HalfNoteNoStem | WholeNote

  /** Utility::GetNotehead, by the undotted value of the rhythm. */
  method GetNotehead(r: real) returns (head: Notehead)
    requires r > 0.0
    ensures head == QuarterNoteNoStem <==> r < 0.5
    ensures head == HalfNoteNoStem <==> 0.5 <= r < 1.0
    ensures head == WholeNote <==> r >= 1.0
  {
    var h := GetUndottedValue(r);
    ghost var k :| h == Pow2(k);
    assert Pow2(-2) == 0.25 && Pow2(-1) == 0.5 && Pow2(0) == 1.0;
    if h <= 0.25 {
      head := QuarterNoteNoStem;
      Pow2Monotone(k, -2) by {
        if k > -2 { Pow2Monotone(-1, k); }
      }
    } else if h == 0.5 {
      head := HalfNoteNoStem;
    } else {
      head := WholeNote;
      if r < 1.0 {
        if k <= -2 { Pow2Monotone(k, -2); }
        else if k >= 0 { Pow2Monotone(0, k); }
      }
    }
    if head != QuarterNoteNoStem && r < 0.5 {
      UndottedIsLargest(r, k, -2) by {
        if k > -2 { Pow2Monotone(-1, k); }
      }
    }
    if r >= 1.0 {
      UndottedIsLargest(r, 0, k);
    }
  }

  // ---------------------------------------------------------------------
  // Staff line/space indices
  // ---------------------------------------------------------------------

  /** Utility::GetTopLine: line/space index of the top staff line. It is a
      line, not a space (its parity differs from the line count's, unlike
      the spaces RoundUpToNextSpace gives), and it lies on or above the
      middle line 0 of a staff with at least one line. */
  function GetTopLine(staffLines: int): (r: int)
    ensures (r - staffLines) % 2 == 1
    ensures staffLines >= 1 ==> r >= 0
  {
    staffLines - 1
  }

  /** Utility::GetBottomLine: line/space index of the bottom staff line, a
      line on or below the middle line 0 of a staff with at least one line. */
  function GetBottomLine(staffLines: int): (r: int)
    ensures (r - staffLines) % 2 == 1
    ensures staffLines >= 1 ==> r <= 0
  {
    -staffLines + 1
  }

  /** The top and bottom lines are mirror images about the middle line,
      and stepping two line/spaces at a time from the bottom line to the
      top line meets exactly staffLines lines. */
  lemma StaffLinesSpan(staffLines: int)
    requires staffLines >= 1
    ensures GetTopLine(staffLines) == -GetBottomLine(staffLines)
    ensures (GetTopLine(staffLines) - GetBottomLine(staffLines)) / 2 + 1 == staffLines
  {
  }

  /** Dafny's `%` is Euclidean, C++'s truncates; both give a non-zero
      remainder for exactly the odd numbers, which is all the source tests. */
  predicate IsOdd(x: int) {
    x % 2 != 0
  }

  /** Utility::RoundUpToNextSpace: the least line/space at or above s that
      is a space of a staff with `staffLines` lines (same parity as the
      line count). */
  function RoundUpToNextSpace(s: int, staffLines: int): (r: int)
    ensures r == s || r == s + 1
    ensures (r - staffLines) % 2 == 0
  {
    if IsOdd(staffLines) then
      (if IsOdd(s) then s else s + 1)
    else
      (if IsOdd(s) then s + 1 else s)
  }

  /** Utility::GetLineSpaceForTabbedNote, in the source's two forms (float
      arithmetic for an odd string count, integer division for an even one);
      both give the same linear formula. */
  function GetLineSpaceForTabbedNote(stringIndex: int, numStrings: int): (r: real)
    ensures r == (numStrings - 1 - 2 * stringIndex) as real
  {
    if IsOdd(numStrings) then
      ((numStrings as real) / 2.0 + 0.5 - ((stringIndex + 1) as real)) * 2.0
    else
      (((numStrings / 2) - (stringIndex + 1)) * 2 + 1) as real
  }

  /** The first string of a tablature staff sits on the top line, the last
      on the bottom line, and neighbouring strings are one line apart. */
  lemma TabbedStringsOnLines(numStrings: int, i: int)
    requires 0 <= i < numStrings
    ensures GetLineSpaceForTabbedNote(0, numStrings) == GetTopLine(numStrings) as real
    ensures GetLineSpaceForTabbedNote(numStrings - 1, numStrings) == GetBottomLine(numStrings) as real
    ensures i + 1 < numStrings ==>
      GetLineSpaceForTabbedNote(i, numStrings) - GetLineSpaceForTabbedNote(i + 1, numStrings) == 2.0
    ensures GetBottomLine(numStrings) as real <= GetLineSpaceForTabbedNote(i, numStrings) <= GetTopLine(numStrings) as real
  {
  }

  // ---------------------------------------------------------------------
  // Note names and MIDI values
  // ---------------------------------------------------------------------

  datatype Letter = C | D | E | F | G | A | B
  datatype Accidental = TripleFlat | DoubleFlat | Flat | Natural | Sharp | DoubleSharp | TripleSharp

  /** A mica note name: a letter with an accidental (CSharp, ETripleFlat,
      ...), or a concept that is no spelled note name. */
  datatype NoteName = Spelled(letter: Letter, accidental: Accidental) | Unnamed

  function LetterPitchClass(l: Letter): int {
    match l
    case C => 0 case D => 2 case E => 4 case F => 5 case G => 7 case A => 9 case B => 11
  }

  function AccidentalOffset(a: Accidental): int {
    match a
    case TripleFlat => -3 case DoubleFlat => -2 case Flat => -1 case Natural => 0
    case Sharp => 1 case DoubleSharp => 2 case TripleSharp => 3
  }

  /** The pitch class the source's table lists a note name under, with the
      same spellings per class; unlisted names (the C spellings and anything
      else) fall through to 0. */
  function NoteIndex(name: NoteName): int {
    if name == Spelled(B, DoubleSharp) || name == Spelled(C, Sharp)
      || name == Spelled(D, Flat) || name == Spelled(E, TripleFlat) then 1
    else if name == Spelled(B, TripleSharp) || name == Spelled(C, DoubleSharp)
      || name == Spelled(D, Natural) || name == Spelled(E, DoubleFlat)
      || name == Spelled(F, TripleFlat) then 2
    else if name == Spelled(C, TripleSharp) || name == Spelled(D, Sharp)
      || name == Spelled(E, Flat) || name == Spelled(F, DoubleFlat) then 3
    else if name == Spelled(D, DoubleSharp) || name == Spelled(E, Natural)
      || name == Spelled(F, Flat) || name == Spelled(G, TripleFlat) then 4
    else if name == Spelled(D, TripleSharp) || name == Spelled(E, Sharp)
      || name == Spelled(F, Natural) || name == Spelled(G, DoubleFlat) then 5
    else if name == Spelled(E, DoubleSharp) || name == Spelled(F, Sharp)
      || name == Spelled(G, Flat) || name == Spelled(A, TripleFlat) then 6
    else if name == Spelled(E, TripleSharp) || name == Spelled(F, DoubleSharp)
      || name == Spelled(G, Natural) || name == Spelled(A, DoubleFlat) then 7
    else if name == Spelled(F, TripleSharp) || name == Spelled(G, Sharp)
      || name == Spelled(A, Flat) || name == Spelled(B, TripleFlat) then 8
    else if name == Spelled(G, DoubleSharp) || name == Spelled(A, Natural)
      || name == Spelled(B, DoubleFlat) || name == Spelled(C, TripleFlat) then 9
    else if name == Spelled(G, TripleSharp) || name == Spelled(A, Sharp)
      || name == Spelled(B, Flat) || name == Spelled(C, DoubleFlat) then 10
    else if name == Spelled(A, DoubleSharp) || name == Spelled(B, Natural)
      || name == Spelled(C, Flat) || name == Spelled(D, TripleFlat) then 11
    else 0
  }

  /** Utility::GetNoteNumberForNoteName, given the octave index and the note
      name that the source looks up in the mica maps. The number lies in
      the octave's twelve numbers; a spelled name sounds the pitch class of
      its letter moved by its accidental, and an unnamed note is the
      octave's C. */
  function GetNoteNumberForNoteName(octaveIndex: int, name: NoteName): (r: int)
    ensures 12 * octaveIndex <= r < 12 * octaveIndex + 12
    ensures name.Spelled? ==>
      r == 12 * octaveIndex + (LetterPitchClass(name.letter) + AccidentalOffset(name.accidental)) % 12
    ensures name.Unnamed? ==> r == 12 * octaveIndex
  {
    octaveIndex * 12 + NoteIndex(name)
  }

  /** Two spellings in one octave get the same number exactly when they
      are enharmonic, that is when they sound the same pitch class. */
  lemma EnharmonicNoteNumbers(octaveIndex: int, a: NoteName, b: NoteName)
    requires a.Spelled? && b.Spelled?
    ensures GetNoteNumberForNoteName(octaveIndex, a) == GetNoteNumberForNoteName(octaveIndex, b) <==>
      (LetterPitchClass(a.letter) + AccidentalOffset(a.accidental)) % 12 ==
      (LetterPitchClass(b.letter) + AccidentalOffset(b.accidental)) % 12
  {
  }

  /** A mica pitch concept: one of the MIDIValue0..127 concepts, or
      Undefined. */
  datatype Pitch = Undefined | MIDIValue(number: int)

  /** Utility::GetMIDIValueForNoteNumber as written: a MIDI value exactly
      for 0..127, the one with the same number, except that the case for
      110 returns MIDIValue100. */
  function GetMIDIValueForNoteNumberAsWritten(noteNumber: int): (p: Pitch)
    ensures p.MIDIValue? <==> 0 <= noteNumber <= 127
    ensures p.MIDIValue? && noteNumber != 110 ==> p.number == noteNumber
    ensures noteNumber == 110 ==> p == MIDIValue(100)
  {
    if 0 <= noteNumber <= 127 then
      MIDIValue(if noteNumber == 110 then 100 else noteNumber)
    else Undefined
  }

  /** The written table sends 110 to the concept of 100, so two note numbers
      share a MIDI value and 110 does not survive the conversion. */
  lemma MIDIValue110Collides()
    ensures GetMIDIValueForNoteNumberAsWritten(110) == GetMIDIValueForNoteNumberAsWritten(100)
    ensures GetMIDIValueForNoteNumberAsWritten(110) != MIDIValue(110)
  {
  }

  /** GetMIDIValueForNoteNumber as the table's other 127 cases intend:
      note number k is MIDIValue<k> within 0..127 and Undefined outside. */
  function GetMIDIValueForNoteNumber(noteNumber: int): (p: Pitch)
    ensures p.MIDIValue? <==> 0 <= noteNumber <= 127
    ensures p.MIDIValue? ==> p.number == noteNumber
  {
    if 0 <= noteNumber <= 127 then MIDIValue(noteNumber) else Undefined
  }

  /** The corrected table is injective on 0..127 and agrees with the
      written one everywhere except at 110. */
  lemma MIDIValueCorrected(j: int, k: int)
    ensures 0 <= j <= 127 && 0 <= k <= 127 && j != k ==>
      GetMIDIValueForNoteNumber(j) != GetMIDIValueForNoteNumber(k)
    ensures k != 110 ==> GetMIDIValueForNoteNumber(k) == GetMIDIValueForNoteNumberAsWritten(k)
  {
  }
}
