/** The batch input of app.py (lines 211-212): a text such as
    `D4,0.5; F#4,1.0; A4,0.25` becomes a list of (note, duration) pairs. */
module BatchInput {
  import opened Outcomes
  import opened Text

  /** Why a batch is refused. Python raises `ValueError` in both cases: the
      tuple unpacking finds the wrong number of fields, or `float` refuses
      the duration text. `entry` counts the `;`-separated pieces from 0. */
  datatype BatchError = WrongFieldCount(entry: nat, fields: nat) | BadDuration(entry: nat, text: string)

  /** `x.strip().split(',')` for one `;`-separated piece. */
  function Fields(piece: string): seq<string>
  {
    Split(Strip(piece), ',')
  }

  /** The unpacking `n, d` and the pair `(n.strip(), float(d))` for the
      fields of piece number `k`; `duration` stands for `float`. */
  function ParseEntry<D>(fields: seq<string>, k: nat, duration: string -> Option<D>): (r: Result<(string, D), BatchError>)
    ensures r.Success? <==> |fields| == 2 && duration(fields[1]).Some?
    ensures r.Success? ==> r.value.0 == Strip(fields[0]) && Some(r.value.1) == duration(fields[1])
    ensures r.Failure? && |fields| != 2 ==> r.error == WrongFieldCount(k, |fields|)
    ensures r.Failure? && |fields| == 2 ==> r.error == BadDuration(k, fields[1])
  {
    if |fields| != 2 then Failure(WrongFieldCount(k, |fields|))
    else match duration(fields[1])
      case None => Failure(BadDuration(k, fields[1]))
      case Some(d) => Success((Strip(fields[0]), d))
  }

  /** The second comprehension over the field lists, entry by entry from
      the front: the pairs so far, or the error of the first entry refused.
      `step` turns the fields of entry `k` into a pair. */
  function ParsePairs<P>(entries: seq<seq<string>>, step: (seq<string>, nat) -> Result<P, BatchError>): Result<seq<P>, BatchError>
  {
    if entries == [] then Success([])
    else
      var prefix := ParsePairs(entries[..|entries| - 1], step);
      if prefix.Failure? then prefix
      else match step(entries[|entries| - 1], |entries| - 1)
        case Failure(e) => Failure(e)
        case Success(p) => Success(prefix.value + [p])
  }

  /** The first comprehension: the field list of every `;`-separated piece. */
  function FieldLists(pieces: seq<string>): seq<seq<string>>
  {
    seq(|pieces|, i requires 0 <= i < |pieces| => Fields(pieces[i]))
  }

  function EntryStep<D>(duration: string -> Option<D>): (seq<string>, nat) -> Result<(string, D), BatchError>
  {
    (fields: seq<string>, k: nat) => ParseEntry(fields, k, duration)
  }

  /** Both comprehensions, over the pieces `note_input.split(';')` gives. */
  function ParsePieces<D>(pieces: seq<string>, duration: string -> Option<D>): Result<seq<(string, D)>, BatchError>
  {
    ParsePairs(FieldLists(pieces), EntryStep(duration))
  }

  /** The batch splitter of app.py lines 211-212. */
  function ParseBatch<D>(input: string, duration: string -> Option<D>): Result<seq<(string, D)>, BatchError>
  {
    ParsePieces(Split(input, ';'), duration)
  }

  /** The comprehension succeeds exactly when every entry does, and then
      holds one pair per entry, in order. */
  lemma {:induction false} ParsePairsSuccess<P>(entries: seq<seq<string>>, step: (seq<string>, nat) -> Result<P, BatchError>)
    ensures ParsePairs(entries, step).Success? <==> forall i :: 0 <= i < |entries| ==> step(entries[i], i).Success?
    ensures ParsePairs(entries, step).Success? ==> |ParsePairs(entries, step).value| == |entries|
    ensures ParsePairs(entries, step).Success? ==> forall i :: 0 <= i < |entries| ==>
              ParsePairs(entries, step).value[i] == step(entries[i], i).value
  {
    if entries != [] {
      var n := |entries| - 1;
      var init := entries[..n];
      ParsePairsSuccess(init, step);
      assert forall i :: 0 <= i < n ==> init[i] == entries[i];
    }
  }

  /** When the comprehension fails, it fails with the error of the first
      entry refused. */
  lemma {:induction false} ParsePairsFailure<P>(entries: seq<seq<string>>, step: (seq<string>, nat) -> Result<P, BatchError>)
    requires ParsePairs(entries, step).Failure?
    ensures exists k :: 0 <= k < |entries| && step(entries[k], k) == Failure(ParsePairs(entries, step).error)
                        && forall j :: 0 <= j < k ==> step(entries[j], j).Success?
  {
    var n := |entries| - 1;
    var init := entries[..n];
    assert forall i :: 0 <= i < n ==> init[i] == entries[i];
    if ParsePairs(init, step).Failure? {
      ParsePairsFailure(init, step);
      var k :| 0 <= k < n && step(init[k], k) == Failure(ParsePairs(init, step).error)
               && forall j :: 0 <= j < k ==> step(init[j], j).Success?;
      assert step(entries[k], k) == Failure(ParsePairs(entries, step).error);
    } else {
      ParsePairsSuccess(init, step);
      assert step(entries[n], n) == Failure(ParsePairs(entries, step).error);
    }
  }

  /** A piece is accepted when it has exactly two fields and `float` takes
      the second. */
  predicate Accepted<D>(piece: string, duration: string -> Option<D>)
  {
    |Fields(piece)| == 2 && duration(Fields(piece)[1]).Some?
  }

  /** What the comprehension's step does with one piece. */
  lemma StepMeaning<D>(piece: string, k: nat, duration: string -> Option<D>)
    ensures var r := EntryStep(duration)(Fields(piece), k);
      && (r.Success? <==> Accepted(piece, duration))
      && (r.Success? ==> r.value == (Strip(Fields(piece)[0]), duration(Fields(piece)[1]).value))
      && (r.Failure? ==> Refusal(piece, k, duration, r.error))
  {
  }

  /** Why piece number `k` is refused: the number of fields when it is not
      two, or else the duration text `float` does not take. */
  predicate Refusal<D>(piece: string, k: nat, duration: string -> Option<D>, e: BatchError)
  {
    var f := Fields(piece);
    || (|f| != 2 && e == WrongFieldCount(k, |f|))
    || (|f| == 2 && duration(f[1]).None? && e == BadDuration(k, f[1]))
  }

  /** The pieces are accepted exactly when every one of them is; they then
      yield one pair per piece, in order: the stripped note field and the
      parsed duration. */
  lemma ParsePiecesSuccess<D>(pieces: seq<string>, duration: string -> Option<D>)
    ensures ParsePieces(pieces, duration).Success? <==> forall i :: 0 <= i < |pieces| ==> Accepted(pieces[i], duration)
    ensures ParsePieces(pieces, duration).Success? ==> |ParsePieces(pieces, duration).value| == |pieces|
    ensures ParsePieces(pieces, duration).Success? ==> forall i :: 0 <= i < |pieces| ==>
              ParsePieces(pieces, duration).value[i] == (Strip(Fields(pieces[i])[0]), duration(Fields(pieces[i])[1]).value)
  {
    var entries := FieldLists(pieces);
    var step := EntryStep(duration);
    ParsePairsSuccess(entries, step);
    forall i | 0 <= i < |pieces|
      ensures step(entries[i], i).Success? <==> Accepted(pieces[i], duration)
      ensures step(entries[i], i).Success? ==>
                step(entries[i], i).value == (Strip(Fields(pieces[i])[0]), duration(Fields(pieces[i])[1]).value)
    {
      StepMeaning(pieces[i], i, duration);
    }
  }

  /** Refused pieces are reported at the first refused one, and why. */
  lemma ParsePiecesFailure<D>(pieces: seq<string>, duration: string -> Option<D>)
    requires ParsePieces(pieces, duration).Failure?
    ensures exists k :: 0 <= k < |pieces| && Refusal(pieces[k], k, duration, ParsePieces(pieces, duration).error)
                        && forall j :: 0 <= j < k ==> Accepted(pieces[j], duration)
  {
    var entries := FieldLists(pieces);
    var step := EntryStep(duration);
    var e := ParsePieces(pieces, duration).error;
    ParsePairsFailure(entries, step);
    var k :| 0 <= k < |entries| && step(entries[k], k) == Failure(e)
             && forall j :: 0 <= j < k ==> step(entries[j], j).Success?;
    assert Refusal(pieces[k], k, duration, e) by {
      assert entries[k] == Fields(pieces[k]);
      StepMeaning(pieces[k], k, duration);
    }
    forall j | 0 <= j < k ensures Accepted(pieces[j], duration) {
      assert entries[j] == Fields(pieces[j]);
      StepMeaning(pieces[j], j, duration);
    }
  }

  /** The `note,duration` piece of every pair. */
  function FormattedPieces(pairs: seq<(string, string)>): seq<string>
  {
    seq(|pairs|, i requires 0 <= i < |pairs| => pairs[i].0 + [','] + pairs[i].1)
  }

  /** Writes pairs back as batch text: `note,duration` pieces joined by `;`. */
  function FormatBatch(pairs: seq<(string, string)>): string
  {
    Join(FormattedPieces(pairs), ';')
  }

  /** A field free of separators and of surrounding white space. */
  predicate Plain(t: string)
  {
    Trimmed(t) && ',' !in t && ';' !in t
  }

  lemma PieceSplit(note: string, text: string)
    requires ',' !in note && ',' !in text
    ensures Split(note + [','] + text, ',') == [note, text]
  {
    SplitCut(note, ',', text);
    SplitNoSeparator(text, ',');
  }

  lemma PieceTrimmed(note: string, text: string)
    requires Trimmed(note) && Trimmed(text)
    ensures Trimmed(note + [','] + text)
  {
    var piece := note + [','] + text;
    assert piece[0] == if note == [] then ',' else note[0];
    assert piece[|piece| - 1] == if text == [] then ',' else text[|text| - 1];
  }

  /** One formatted piece splits back into its two fields. */
  lemma PieceFields(note: string, text: string)
    requires Plain(note) && Plain(text)
    ensures Fields(note + [','] + text) == [note, text]
    ensures Strip(note) == note
  {
    PieceTrimmed(note, text);
    StripTrimmed(note + [','] + text);
    StripTrimmed(note);
    PieceSplit(note, text);
  }

  lemma FormattedSplit(pairs: seq<(string, string)>)
    requires |pairs| >= 1
    requires forall i :: 0 <= i < |pairs| ==> ';' !in pairs[i].0 && ';' !in pairs[i].1
    ensures Split(FormatBatch(pairs), ';') == FormattedPieces(pairs)
  {
    var pieces := FormattedPieces(pairs);
    forall i | 0 <= i < |pieces| ensures ';' !in pieces[i] {
      assert pieces[i] == pairs[i].0 + [','] + pairs[i].1;
    }
    SplitJoin(pieces, ';');
  }

  /** Pieces whose fields are already known to be a plain note and a
      duration text parse to those pairs. */
  lemma PiecesWithFields<D>(pieces: seq<string>, pairs: seq<(string, string)>, duration: string -> Option<D>)
    requires |pieces| == |pairs|
    requires forall i :: 0 <= i < |pieces| ==> Fields(pieces[i]) == [pairs[i].0, pairs[i].1]
    requires forall i :: 0 <= i < |pairs| ==> Strip(pairs[i].0) == pairs[i].0 && duration(pairs[i].1).Some?
    ensures ParsePieces(pieces, duration).Success?
    ensures |ParsePieces(pieces, duration).value| == |pairs|
    ensures forall i :: 0 <= i < |pairs| ==> ParsePieces(pieces, duration).value[i] == (pairs[i].0, duration(pairs[i].1).value)
  {
    ParsePiecesSuccess(pieces, duration);
  }

  /** Formatting pairs of plain fields and parsing the text back gives the
      notes unchanged and the durations `float` reads from their texts. */
  lemma FormatParse<D>(pairs: seq<(string, string)>, duration: string -> Option<D>)
    requires |pairs| >= 1
    requires forall i :: 0 <= i < |pairs| ==> Plain(pairs[i].0) && Plain(pairs[i].1) && duration(pairs[i].1).Some?
    ensures ParseBatch(FormatBatch(pairs), duration).Success?
    ensures |ParseBatch(FormatBatch(pairs), duration).value| == |pairs|
    ensures forall i :: 0 <= i < |pairs| ==>
              ParseBatch(FormatBatch(pairs), duration).value[i] == (pairs[i].0, duration(pairs[i].1).value)
  {
    var pieces := FormattedPieces(pairs);
    assert ParseBatch(FormatBatch(pairs), duration) == ParsePieces(pieces, duration) by {
      FormattedSplit(pairs);
    }
    assert forall i :: 0 <= i < |pieces| ==> Fields(pieces[i]) == [pairs[i].0, pairs[i].1] by {
      forall i | 0 <= i < |pieces| ensures Fields(pieces[i]) == [pairs[i].0, pairs[i].1] {
        PieceFields(pairs[i].0, pairs[i].1);
      }
    }
    assert forall i :: 0 <= i < |pairs| ==> Strip(pairs[i].0) == pairs[i].0 by {
      forall i | 0 <= i < |pairs| ensures Strip(pairs[i].0) == pairs[i].0 {
        StripTrimmed(pairs[i].0);
      }
    }
    PiecesWithFields(pieces, pairs, duration);
  }

  /** Text whose pieces have known fields parses to those pairs. */
  lemma TextWithFields<D>(input: string, pairs: seq<(string, string)>, duration: string -> Option<D>)
    requires |Split(input, ';')| == |pairs|
    requires forall i :: 0 <= i < |pairs| ==> Fields(Split(input, ';')[i]) == [pairs[i].0, pairs[i].1]
    requires forall i :: 0 <= i < |pairs| ==> Strip(pairs[i].0) == pairs[i].0 && duration(pairs[i].1).Some?
    ensures ParseBatch(input, duration).Success?
    ensures |ParseBatch(input, duration).value| == |pairs|
    ensures forall i :: 0 <= i < |pairs| ==> ParseBatch(input, duration).value[i] == (pairs[i].0, duration(pairs[i].1).value)
  {
    var pieces := Split(input, ';');
    assert ParseBatch(input, duration) == ParsePieces(pieces, duration);
    PiecesWithFields(pieces, pairs, duration);
  }

  lemma PromptPieces()
    ensures Split("D4,0.5; F#4,1.0; A4,0.25", ';') == ["D4,0.5", " F#4,1.0", " A4,0.25"]
  {
    var pieces := ["D4,0.5", " F#4,1.0", " A4,0.25"];
    assert Join(pieces, ';') == "D4,0.5; F#4,1.0; A4,0.25";
    SplitJoin(pieces, ';');
  }

  /** A piece with white space before a plain note and a plain duration. */
  lemma PaddedPieceFields(note: string, text: string)
    requires Plain(note) && Plain(text)
    ensures Fields(" " + note + [','] + text) == [note, text]
  {
    assert " " + note + [','] + text == " " + (note + [','] + text) + "";
    PieceTrimmed(note, text);
    StripPadded(" ", note + [','] + text, "");
    PieceSplit(note, text);
  }

  lemma FirstPromptPiece(piece: string)
    requires piece == "D4,0.5"
    ensures Fields(piece) == ["D4", "0.5"]
  {
    assert piece == "D4" + [','] + "0.5";
    PieceFields("D4", "0.5");
  }

  /** The prompt pieces after the first: one space, then a plain note and a
      plain duration text. */
  lemma LaterPromptPiece(piece: string, note: string, text: string)
    requires || (piece == " F#4,1.0" && note == "F#4" && text == "1.0")
             || (piece == " A4,0.25" && note == "A4" && text == "0.25")
    ensures Fields(piece) == [note, text]
  {
    assert piece == " " + note + [','] + text;
    PaddedPieceFields(note, text);
  }

  lemma PromptFields(input: string, pairs: seq<(string, string)>)
    requires input == "D4,0.5; F#4,1.0; A4,0.25"
    requires pairs == [("D4", "0.5"), ("F#4", "1.0"), ("A4", "0.25")]
    ensures |Split(input, ';')| == |pairs|
    ensures forall i :: 0 <= i < |pairs| ==> Fields(Split(input, ';')[i]) == [pairs[i].0, pairs[i].1]
  {
    var pieces := Split(input, ';');
    assert |pieces| == 3 && pieces[0] == "D4,0.5" && pieces[1] == " F#4,1.0" && pieces[2] == " A4,0.25" by {
      PromptPieces();
    }
    forall i | 0 <= i < |pairs| ensures Fields(pieces[i]) == [pairs[i].0, pairs[i].1] {
      if i == 0 {
        FirstPromptPiece(pieces[0]);
      } else if i == 1 {
        LaterPromptPiece(pieces[1], "F#4", "1.0");
      } else {
        LaterPromptPiece(pieces[2], "A4", "0.25");
      }
    }
  }

  /** A note that starts with a letter and ends with a digit strips to
      itself. */
  lemma NoteStrips(note: string)
    requires |note| >= 1 && 'A' <= note[0] <= 'G' && '0' <= note[|note| - 1] <= '9'
    ensures Strip(note) == note
  {
    StripTrimmed(note);
  }

  lemma PromptNotes(pairs: seq<(string, string)>)
    requires pairs == [("D4", "0.5"), ("F#4", "1.0"), ("A4", "0.25")]
    ensures forall i :: 0 <= i < |pairs| ==> Strip(pairs[i].0) == pairs[i].0
  {
    forall i | 0 <= i < |pairs| ensures Strip(pairs[i].0) == pairs[i].0 {
      NoteStrips(pairs[i].0);
    }
  }

  /** The example from the input prompt gives three pairs, in order, once
      `float` takes the three duration texts. */
  lemma PromptExample<D>(input: string, pairs: seq<(string, string)>, duration: string -> Option<D>)
    requires input == "D4,0.5; F#4,1.0; A4,0.25"
    requires pairs == [("D4", "0.5"), ("F#4", "1.0"), ("A4", "0.25")]
    requires forall i :: 0 <= i < |pairs| ==> duration(pairs[i].1).Some?
    ensures ParseBatch(input, duration).Success?
    ensures |ParseBatch(input, duration).value| == 3
    ensures forall i :: 0 <= i < 3 ==> ParseBatch(input, duration).value[i] == (pairs[i].0, duration(pairs[i].1).value)
  {
    PromptFields(input, pairs);
    PromptNotes(pairs);
    TextWithFields(input, pairs, duration);
  }

  lemma MissingPieces()
    ensures Split("D4; F#4,1.0", ';') == ["D4", " F#4,1.0"]
  {
    var pieces := ["D4", " F#4,1.0"];
    assert Join(pieces, ';') == "D4; F#4,1.0";
    SplitJoin(pieces, ';');
  }

  lemma BareNote(piece: string)
    requires piece == "D4"
    ensures Fields(piece) == ["D4"]
  {
    assert |piece| == 2 && piece[0] == 'D' && piece[1] == '4';
    assert ',' !in piece;
    StripTrimmed(piece);
    SplitNoSeparator(piece, ',');
  }

  /** A piece without a comma cannot be unpacked into two fields: the whole
      batch is refused at that piece, whatever follows. */
  lemma MissingDurationExample<D>(input: string, duration: string -> Option<D>)
    requires input == "D4; F#4,1.0"
    ensures ParseBatch(input, duration).Failure?
    ensures ParseBatch(input, duration).error == WrongFieldCount(0, 1)
  {
    var pieces := Split(input, ';');
    assert |pieces| == 2 && Fields(pieces[0]) == ["D4"] by {
      MissingPieces();
      BareNote(pieces[0]);
    }
    assert !Accepted(pieces[0], duration);
    ParsePiecesSuccess(pieces, duration);
    ParsePiecesFailure(pieces, duration);
  }
}
