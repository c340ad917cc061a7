/** Conversion between note names such as `A4` or `C#-1` and MIDI note
    numbers, as `note_to_midi` and `midi_to_note` in app.py do it. */
module Pitch {
  import opened Outcomes
  import opened Text

  /** The twelve pitch classes, sharps only, starting at C (app.py line 17). */
  const PITCH_NAMES: seq<string> := ["C", "C#", "D", "D#", "E", "F", "F#", "G", "G#", "A", "A#", "B"]

  datatype Accidental = Natural | Sharp | Flat

  /** A string that matches `^([A-G]#?|[A-G]b?)(-?\d+)$`, taken apart: the
      letter, the optional `#` or `b`, the optional minus sign and the octave
      digits. */
  datatype NoteToken = NoteToken(letter: char, accidental: Accidental, negative: bool, digits: string)

  predicate ValidToken(tok: NoteToken)
  {
    'A' <= tok.letter <= 'G' && |tok.digits| >= 1 && AllDigits(tok.digits)
  }

  function AccidentalText(a: Accidental): string
  {
    match a
    case Natural => ""
    case Sharp => "#"
    case Flat => "b"
  }

  function SignText(negative: bool): string
  {
    if negative then "-" else ""
  }

  /** The text of a token: the strings the note pattern accepts are exactly
      the renderings of valid tokens (`LexSound`, `LexComplete`). */
  function Render(tok: NoteToken): string
  {
    [tok.letter] + AccidentalText(tok.accidental) + SignText(tok.negative) + tok.digits
  }

  /** The first capture group of the pattern. */
  function Name(tok: NoteToken): string
  {
    [tok.letter] + AccidentalText(tok.accidental)
  }

  /** `int()` of the second capture group. */
  function Octave(tok: NoteToken): int
  {
    if tok.negative then -DecimalValue(tok.digits) else DecimalValue(tok.digits)
  }

  /** The accidental the pattern's first group takes from a string whose
      first character is a letter: its second character when that is `#` or
      `b`. The octave part can never start with either, so no other split of
      the string can match. */
  function AccidentalAt(t: string): Accidental
  {
    if |t| > 1 && t[1] == '#' then Sharp else if |t| > 1 && t[1] == 'b' then Flat else Natural
  }

  /** Matches `-?\d+` against a whole string: the sign and the digits. */
  function LexOctave(rest: string): (r: Option<(bool, string)>)
    ensures r.Some? ==> |r.value.1| >= 1 && AllDigits(r.value.1)
    ensures r.Some? ==> rest == SignText(r.value.0) + r.value.1
  {
    var negative := |rest| > 0 && rest[0] == '-';
    var digits := if negative then rest[1..] else rest;
    if |digits| == 0 || !AllDigits(digits) then None else Some((negative, digits))
  }

  lemma LexOctaveComplete(negative: bool, digits: string)
    requires |digits| >= 1 && AllDigits(digits)
    ensures LexOctave(SignText(negative) + digits) == Some((negative, digits))
  {
    if negative {
      assert ("-" + digits)[1..] == digits;
    } else {
      assert IsDigit(digits[0]);
      assert "" + digits == digits;
    }
  }

  /** Matches the note pattern against a whole (already stripped) string. */
  function Lex(t: string): Option<NoteToken>
  {
    if |t| == 0 || !('A' <= t[0] <= 'G') then None
    else
      var acc := AccidentalAt(t);
      var o := LexOctave(t[1 + |AccidentalText(acc)|..]);
      if o.None? then None else Some(NoteToken(t[0], acc, o.value.0, o.value.1))
  }

  lemma AccidentalPrefix(t: string)
    requires |t| >= 1 + |AccidentalText(AccidentalAt(t))|
    ensures t[1..1 + |AccidentalText(AccidentalAt(t))|] == AccidentalText(AccidentalAt(t))
  {
    if AccidentalAt(t) != Natural {
      assert t[1..2] == [t[1]];
    }
  }

  lemma Reassemble(t: string, a: string, sign: string, digits: string)
    requires 1 + |a| <= |t| && t[1..1 + |a|] == a && t[1 + |a|..] == sign + digits
    ensures [t[0]] + a + sign + digits == t
  {
    assert t == [t[0]] + t[1..1 + |a|] + t[1 + |a|..];
  }

  /** What the pattern accepts is the rendering of the token it yields. */
  lemma LexSound(t: string)
    requires Lex(t).Some?
    ensures ValidToken(Lex(t).value) && Render(Lex(t).value) == t
  {
    var tok := Lex(t).value;
    AccidentalPrefix(t);
    Reassemble(t, AccidentalText(tok.accidental), SignText(tok.negative), tok.digits);
  }

  /** The accidental read back from a rendering is the token's own: an
      octave part never starts with `#` or `b`. */
  lemma RenderedAccidental(tok: NoteToken)
    requires ValidToken(tok)
    ensures AccidentalAt(Render(tok)) == tok.accidental
  {
    var t := Render(tok);
    var sign := SignText(tok.negative);
    assert t == [tok.letter] + (AccidentalText(tok.accidental) + (sign + tok.digits));
    if tok.accidental == Natural && |t| > 1 {
      assert t[1] == (sign + tok.digits)[0];
      if !tok.negative {
        assert IsDigit(tok.digits[0]);
      }
    }
  }

  lemma RenderedOctave(tok: NoteToken)
    ensures 1 + |AccidentalText(tok.accidental)| <= |Render(tok)|
    ensures Render(tok)[1 + |AccidentalText(tok.accidental)|..] == SignText(tok.negative) + tok.digits
  {
    var t := Render(tok);
    assert t == [tok.letter] + AccidentalText(tok.accidental) + (SignText(tok.negative) + tok.digits);
  }

  /** Every rendering of a valid token is accepted, yielding that token. */
  lemma LexComplete(tok: NoteToken)
    requires ValidToken(tok)
    ensures Lex(Render(tok)) == Some(tok)
  {
    RenderedAccidental(tok);
    RenderedOctave(tok);
    LexOctaveComplete(tok.negative, tok.digits);
    assert Render(tok)[0] == tok.letter;
  }

  /** Python's `list.index`: the first position of `x`, or `None` where Python
      raises `ValueError`. */
  function IndexOf(table: seq<string>, x: string): (r: Option<nat>)
    ensures r.Some? ==> r.value < |table| && table[r.value] == x
    ensures r.Some? ==> forall j :: 0 <= j < r.value ==> table[j] != x
    ensures r.None? <==> x !in table
  {
    if table == [] then None
    else if table[0] == x then Some(0)
    else match IndexOf(table[1..], x)
      case None => None
      case Some(i) => Some(i + 1)
  }

  /** The two ways `note_to_midi` raises `ValueError`: the stripped input does
      not match the pattern (the message quotes the input as given), or the
      matched name is not in the sharp-only table. */
  datatype NoteError = InvalidNote(input: string) | UnknownName(name: string)

  /** `note_to_midi` (app.py lines 24-30). */
  function NoteToMidi(note: string): (r: Result<int, NoteError>)
    ensures r.Failure? && r.error.InvalidNote? <==> Lex(Strip(note)).None?
    ensures r.Failure? && r.error.InvalidNote? ==> r.error.input == note
  {
    match Lex(Strip(note))
    case None => Failure(InvalidNote(note))
    case Some(tok) => TokenToMidi(tok)
  }

  /** The table lookup and arithmetic of `note_to_midi` on a matched name. */
  function TokenToMidi(tok: NoteToken): (r: Result<int, NoteError>)
    ensures r.Failure? ==> r.error == UnknownName(Name(tok))
  {
    match IndexOf(PITCH_NAMES, Name(tok))
    case None => Failure(UnknownName(Name(tok)))
    case Some(i) => Success(i + 12 * (Octave(tok) + 1))
  }

  /** `midi_to_note` (app.py lines 33-36). Python's `%` and `//` with the
      positive divisor 12 floor, which is what Dafny's `%` and `/` do. */
  function MidiToNote(midi: int): string
  {
    PITCH_NAMES[midi % 12] + IntString(midi / 12 - 1)
  }

  /** The names in the table are exactly the natural letters and the sharps
      other than E# and B#: flats, E# and B# pass the pattern and are then
      refused by the table lookup. */
  lemma NameInTable(tok: NoteToken)
    requires 'A' <= tok.letter <= 'G'
    ensures Name(tok) in PITCH_NAMES <==>
              tok.accidental == Natural || (tok.accidental == Sharp && tok.letter != 'E' && tok.letter != 'B')
  {
    var n := Name(tok);
    if tok.accidental == Flat {
      assert n[1] == 'b';
      assert forall k :: 0 <= k < 12 ==> |PITCH_NAMES[k]| < 2 || PITCH_NAMES[k][1] == '#';
    } else if tok.accidental == Sharp {
      assert n == [tok.letter, '#'];
      if tok.letter == 'E' || tok.letter == 'B' {
        assert forall k :: 0 <= k < 12 ==> PITCH_NAMES[k] != n;
      }
    } else {
      assert n == [tok.letter];
    }
  }

  /** A valid token renders to text with no white space at either end. */
  lemma RenderTrimmed(tok: NoteToken)
    requires ValidToken(tok)
    ensures Trimmed(Render(tok))
  {
    var t := Render(tok);
    var d := tok.digits;
    assert t == [tok.letter] + AccidentalText(tok.accidental) + SignText(tok.negative) + d;
    assert t[|t| - 1] == d[|d| - 1];
    assert d[|d| - 1] in d;
  }

  /** The twelve names are distinct, so `list.index` finds each at its own
      position. */
  lemma TableIndex(i: nat)
    requires i < |PITCH_NAMES|
    ensures IndexOf(PITCH_NAMES, PITCH_NAMES[i]) == Some(i)
  {
    assert forall j, k :: 0 <= j < k < 12 ==> PITCH_NAMES[j] != PITCH_NAMES[k];
  }

  /** A valid token's rendering survives `strip()` and matches the pattern
      as that token. */
  lemma LexRendered(tok: NoteToken)
    requires ValidToken(tok)
    ensures Lex(Strip(Render(tok))) == Some(tok)
  {
    RenderTrimmed(tok);
    StripTrimmed(Render(tok));
    LexComplete(tok);
  }

  /** The lookup of a name in the table yields its position there. */
  lemma LookupValue(tok: NoteToken, i: nat)
    requires i < |PITCH_NAMES| && PITCH_NAMES[i] == Name(tok)
    ensures TokenToMidi(tok).Success? && TokenToMidi(tok).value == i + 12 * (Octave(tok) + 1)
  {
    assert IndexOf(PITCH_NAMES, Name(tok)) == Some(i) by {
      TableIndex(i);
    }
  }

  /** An accepted name, written with no surrounding white space, denotes
      `index(name) + 12 * (octave + 1)`. */
  lemma TokenValue(tok: NoteToken, i: nat)
    requires ValidToken(tok)
    requires i < |PITCH_NAMES| && PITCH_NAMES[i] == Name(tok)
    ensures NoteToMidi(Render(tok)).Success? && NoteToMidi(Render(tok)).value == i + 12 * (Octave(tok) + 1)
  {
    assert NoteToMidi(Render(tok)) == TokenToMidi(tok) by {
      LexRendered(tok);
      NoteToMidiLexed(Render(tok), tok);
    }
    LookupValue(tok, i);
  }

  /** Once the pattern has matched, the table decides. */
  lemma NoteToMidiLexed(text: string, tok: NoteToken)
    requires Lex(Strip(text)) == Some(tok)
    ensures NoteToMidi(text) == TokenToMidi(tok)
  {
  }

  /** `note_to_midi` looks only at the stripped input, except that its error
      message quotes the input as given. */
  lemma NoteToMidiStrips(note: string)
    ensures NoteToMidi(note).Success? <==> NoteToMidi(Strip(note)).Success?
    ensures NoteToMidi(note).Success? ==> NoteToMidi(note) == NoteToMidi(Strip(note))
    ensures NoteToMidi(note).Failure? && NoteToMidi(note).error.UnknownName? ==>
              NoteToMidi(note) == NoteToMidi(Strip(note))
  {
    var t := Strip(note);
    assert Strip(t) == t by {
      StripIdempotent(note);
    }
    assert NoteToMidi(t) == match Lex(t) case None => Failure(InvalidNote(t)) case Some(tok) => TokenToMidi(tok);
  }

  /** An accepted name denotes `index(name) + 12 * (octave + 1)`, whatever
      white space surrounds it. */
  lemma NoteToMidiValue(a: string, tok: NoteToken, b: string, i: nat)
    requires AllSpace(a) && AllSpace(b) && ValidToken(tok)
    requires i < |PITCH_NAMES| && PITCH_NAMES[i] == Name(tok)
    ensures NoteToMidi(a + Render(tok) + b).Success?
    ensures NoteToMidi(a + Render(tok) + b).value == i + 12 * (Octave(tok) + 1)
  {
    RenderTrimmed(tok);
    StripPadded(a, Render(tok), b);
    NoteToMidiStrips(a + Render(tok) + b);
    TokenValue(tok, i);
  }

  /** A name that passes the pattern but is not in the table raises, naming
      the matched pitch class, whatever white space surrounds it. */
  lemma NoteToMidiUnknown(a: string, tok: NoteToken, b: string)
    requires AllSpace(a) && AllSpace(b) && ValidToken(tok)
    requires tok.accidental == Flat || (tok.accidental == Sharp && (tok.letter == 'E' || tok.letter == 'B'))
    ensures NoteToMidi(a + Render(tok) + b) == Failure(UnknownName(Name(tok)))
  {
    RenderTrimmed(tok);
    StripPadded(a, Render(tok), b);
    LexComplete(tok);
    NameInTable(tok);
  }

  /** Every name in the table is a pitch letter, alone or followed by `#`. */
  lemma TableNames()
    ensures forall k :: 0 <= k < |PITCH_NAMES| ==>
              'A' <= PITCH_NAMES[k][0] <= 'G' && (|PITCH_NAMES[k]| == 1 || (|PITCH_NAMES[k]| == 2 && PITCH_NAMES[k][1] == '#'))
  {
  }

  /** A table name read as a token's letter and accidental gives it back. */
  lemma TableName(k: nat, negative: bool, digits: string)
    requires k < |PITCH_NAMES|
    ensures var name := PITCH_NAMES[k];
      var tok := NoteToken(name[0], if |name| == 2 then Sharp else Natural, negative, digits);
      'A' <= tok.letter <= 'G' && Name(tok) == name
  {
    TableNames();
    var name := PITCH_NAMES[k];
    if |name| == 2 {
      assert name == [name[0], '#'];
    } else {
      assert name == [name[0]];
    }
  }

  /** A rendering is the name followed by the octave text. */
  lemma RenderParts(tok: NoteToken)
    ensures Render(tok) == Name(tok) + (SignText(tok.negative) + tok.digits)
  {
  }

  /** `str(i)` is the sign text of `i` followed by the digits of `|i|`. */
  lemma SignedDecimal(i: int)
    ensures IntString(i) == SignText(i < 0) + DecimalString(if i < 0 then -i else i)
  {
    if i >= 0 {
      assert SignText(false) + DecimalString(i) == DecimalString(i);
    }
  }

  /** The token `midi_to_note` prints for a MIDI number. */
  function PrintedToken(midi: int): (tok: NoteToken)
    ensures ValidToken(tok) && Render(tok) == MidiToNote(midi)
    ensures Name(tok) == PITCH_NAMES[midi % 12]
  {
    var name := PITCH_NAMES[midi % 12];
    var octave := midi / 12 - 1;
    var digits := DecimalString(if octave < 0 then -octave else octave);
    var tok := NoteToken(name[0], if |name| == 2 then Sharp else Natural, octave < 0, digits);
    TableName(midi % 12, octave < 0, digits);
    SignedDecimal(octave);
    RenderParts(tok);
    tok
  }

  lemma PrintedOctave(midi: int)
    ensures Octave(PrintedToken(midi)) == midi / 12 - 1
  {
    var octave := midi / 12 - 1;
    DecimalRoundTrip(if octave < 0 then -octave else octave);
  }

  /** A token read back from its rendering denotes its table index plus
      twelve times its octave plus one. */
  lemma ReadBack(tok: NoteToken, i: nat, text: string, octave: int, value: int)
    requires ValidToken(tok) && Render(tok) == text && Octave(tok) == octave
    requires i < |PITCH_NAMES| && PITCH_NAMES[i] == Name(tok)
    requires value == i + 12 * (octave + 1)
    ensures NoteToMidi(text).Success? && NoteToMidi(text).value == value
  {
    TokenValue(tok, i);
  }

  /** Reading back a printed note name gives the MIDI number printed, for
      every integer, negative ones included. */
  lemma RoundTrip(midi: int)
    ensures NoteToMidi(MidiToNote(midi)) == Success(midi)
  {
    PrintedOctave(midi);
    assert midi % 12 + 12 * (midi / 12 - 1 + 1) == midi;
    ReadBack(PrintedToken(midi), midi % 12, MidiToNote(midi), midi / 12 - 1, midi);
  }

  /** `A4` is MIDI 69, the 440 Hz reference, and 69 prints as `A4`. */
  lemma ReferencePitch()
    ensures NoteToMidi("A4").Success? && NoteToMidi("A4").value == 69
    ensures MidiToNote(69) == "A4"
  {
    var tok := NoteToken('A', Natural, false, "4");
    assert Render(tok) == "A4";
    assert Octave(tok) == 4;
    ReadBack(tok, 9, "A4", 4, 69);
  }

  /** `H5` has no pitch letter, so it is not a note. */
  lemma InvalidLetterExample()
    ensures NoteToMidi("H5") == Failure(InvalidNote("H5"))
  {
    assert Strip("H5") == "H5" by {
      StripTrimmed("H5");
    }
  }

  /** ` Bb4 ` is a note, but flats are not in the table. */
  lemma FlatExample()
    ensures NoteToMidi(" Bb4 ") == Failure(UnknownName("Bb"))
  {
    var tok := NoteToken('B', Flat, false, "4");
    assert Name(tok) == "Bb";
    assert " " + Render(tok) + " " == " Bb4 ";
    NoteToMidiUnknown(" ", tok, " ");
  }
}
