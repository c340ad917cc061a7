# Bouzouki pitch-to-fretboard core, in Dafny

This project models the pitch-mapping core of a Streamlit app for the
four-string bouzouki (`app.py`). The strings are Ντο, Φα, Λα and Ρε, tuned to
MIDI 48, 53, 57 and 62, and each reaches twelve frets. The model covers:

- `note_to_midi` and `midi_to_note`: note names such as `A4`, `F#3` or `C#-1`
  and MIDI numbers, converted both ways;
- `find_positions`: the strings and frets on which a MIDI note can be played;
- `tab_from_notes`: builds one tablature row per (note, duration) pair, at the
  first position offered, or dashes when the note is off the neck;
- the batch splitter: turns text such as `D4,0.5; F#4,1.0; A4,0.25` into
  (note, duration) pairs;
- the movement advisor: flags every row whose fret lies more than five frets
  from the previous playable row.

Modules, one per file:

- `Outcomes` (`outcomes.dfy`): `Option` and `Result`. A `Failure` stands for
  the `ValueError` Python raises.
- `Text` (`text.dfy`): Python's `str.strip()`, `str.split(sep)` with a
  one-character separator, and `int`/`str` on decimal integers.
- `Pitch` (`pitch.dfy`): the note pattern `^([A-G]#?|[A-G]b?)(-?\d+)$` as a
  lexer into `NoteToken`, the sharp-only name table, `NoteToMidi` and
  `MidiToNote`.
- `Fretboard` (`fretboard.dfy`): the tuning table and `FindPositions`.
- `Tablature` (`tablature.dfy`): the specification function `Tabulate` and
  the loop method `TabFromNotes`, proved equal to it. The `'—'` cell is the
  `Dash` case of `Slot`.
- `BatchInput` (`batch.dfy`): the two comprehensions of the batch splitter.
  The `float` the app applies to each duration text is a parameter,
  `duration`.
- `Advisor` (`advisor.dfy`): the specification function `Advisories` and the
  loop method `SuggestMovements`, proved equal to it. The method keeps
  `last_fret` as the app does.

The pattern at app.py:25 accepts flat names such as `Bb4`, but the table at
app.py:17 holds only sharps, so `note_names.index` raises at app.py:30. The
model keeps the two errors apart: `InvalidNote` for a text the pattern refuses,
and `UnknownName` for a matched name missing from the table.

## Model

| member | source | states |
|---|---|---|
| Text.TrimLeft | app.py:25 | `lstrip()` returns a suffix of its input that does not start with white space, and everything it removes is white space |
| Text.TrimRight | app.py:25 | `rstrip()` returns a prefix of its input that does not end with white space, and everything it removes is white space |
| Text.Strip | app.py:25 | `strip()` returns a text with white space at neither end, no longer than its input |
| Text.StripPadded | app.py:25 | `strip()` removes any white space around a text that has none at its own ends, and nothing else |
| Text.StripIdempotent | app.py:25 | Stripping twice gives the same as stripping once |
| Text.JoinSplit | app.py:211 | Joining the pieces of `split(sep)` with `sep` gives back the original text |
| Text.SplitJoin | app.py:211 | Splitting a join of separator-free pieces gives the pieces back |
| Text.Split | app.py:211 | `split(sep)` returns at least one piece, and no piece contains the separator |
| Text.DecimalRoundTrip | app.py:29 | `int(str(n)) == n` for every non-negative integer |
| Text.DecimalString | app.py:36 | `str(n)` of a non-negative integer is at least one decimal digit, with no leading zero unless it is the single digit |
| Text.IntString | app.py:36 | `str(i)` starts with a minus sign iff `i < 0`, and every character after that sign is a decimal digit |
| Text.IntRoundTrip | app.py:29-36 | `int` of the digits `str(i)` prints after its optional minus sign gives `abs(i)`, so `int(str(i)) == i` |
| Pitch.LexSound | app.py:25 | Every text the note pattern accepts is the rendering of a valid token: a letter A-G, an optional `#` or `b`, an optional minus sign and at least one digit |
| Pitch.LexComplete | app.py:25 | The pattern accepts every rendering of a valid token and yields that token, so lexing and rendering are inverse |
| Pitch.NoteToMidi | app.py:24-30 | Fails with `InvalidNote(input as given)` exactly when the stripped input does not match the pattern; any other failure is the table lookup's |
| Pitch.IndexOf | app.py:30 | `list.index` returns the first position holding the name, and fails (`None`) iff the name is not in the list |
| Pitch.TokenToMidi | app.py:28-30 | After a match, the only failure is `UnknownName` of the matched name |
| Pitch.NameInTable | app.py:17 | A matched name is in the table iff it is a natural letter, or a sharp other than E# and B#; every flat is refused |
| Pitch.TableIndex | app.py:17 | The twelve names are distinct, so `index` returns each name's own position |
| Pitch.NoteToMidiValue | app.py:24-30 | A name in the table, with any surrounding white space, gives `index(name) + 12 * (octave + 1)` |
| Pitch.NoteToMidiUnknown | app.py:28-30 | A flat, E# or B# passes the pattern but fails at the lookup, naming the matched pitch class |
| Pitch.NoteToMidiStrips | app.py:25 | The result depends only on the stripped input, except that the pattern error quotes the input as given |
| Pitch.PrintedToken | app.py:33-36 | `midi_to_note(m)` is the rendering of a valid token whose name is `note_names[m % 12]` |
| Pitch.PrintedOctave | app.py:35 | The printed octave reads back as `m // 12 - 1` |
| Pitch.RoundTrip | app.py:24-36 | `note_to_midi(midi_to_note(m)) == m` for every integer `m`, negative ones included |
| Pitch.ReferencePitch | app.py:24-36 | `A4` is MIDI 69, and 69 prints as `A4` |
| Pitch.InvalidLetterExample | app.py:25-27 | `H5` is refused by the pattern |
| Pitch.FlatExample | app.py:25-30 | ` Bb4 ` passes the pattern and then fails the lookup as `Bb` |
| Fretboard.PositionsOn | app.py:44 | The comprehension gives no more positions than there are strings, each with a fret in 0..12 |
| Fretboard.PositionsOnDistinct | app.py:44 | Over a run of the tuning table, no string is offered twice |
| Fretboard.PositionsOnMembers | app.py:44 | Over a run of the tuning table, the positions are exactly the reachable strings of that run, each at fret `midi - base` |
| Fretboard.PositionsOnOrdered | app.py:44 | Over a run of the tuning table, the positions keep declaration order |
| Fretboard.FindPositionsMembers | app.py:43-44 | A position is offered iff its string reaches the note, at fret `midi - base` |
| Fretboard.FindPositionsEmpty | app.py:43-44 | No position is offered iff no string reaches the note |
| Fretboard.FindPositionsSpec | app.py:43-44 | Exact membership `0 <= midi - base <= 12`, strictly in declaration order, at most four positions, frets in 0..12, empty iff unreachable |
| Fretboard.PlayableRange | app.py:43-44 | A note has a position iff it lies in 48..74 |
| Fretboard.FirstPosition | app.py:43-44 | The first position is on the lowest string, in declaration order, that reaches the note |
| Fretboard.A4Positions | app.py:43-44 | MIDI 69 gives exactly (Λα, 12) then (Ρε, 7) |
| Tablature.TabulateFailed | app.py:66-67 | Once a prefix has failed, every longer prefix fails with the same error |
| Tablature.TabulateUpToSuccess | app.py:64-74 | A prefix succeeds iff all its notes parse, and then holds one row per pair, in order, with note and duration copied |
| Tablature.TabulateSuccess | app.py:64-74 | The whole list succeeds iff every note parses. It then has one row per pair, in input order, with note text and duration copied and the row placed by the note's MIDI number |
| Tablature.TabulateUpToFailure | app.py:66-67 | A failed prefix carries the error of its first note that does not parse |
| Tablature.TabulateFailure | app.py:66-67 | A failed call returns no partial tablature: it carries the error of the first note that does not parse, and every note before it parses |
| Tablature.TabulateStep | app.py:66-73 | A note that parses extends the rows so far by its own row |
| Tablature.TabulateStops | app.py:66-67 | A note that does not parse, after notes that all did, fails the whole call with its error |
| Tablature.TabFromNotes | app.py:64-74 | The loop returns exactly `Tabulate(notes, NoteToMidi)`, so everything proved of `Tabulate` holds of it |
| Tablature.EntryDashes | app.py:68-73 | The string and fret cells are dashed together, and exactly for notes outside 48..74; note and duration are copied |
| Tablature.EntryPlacement | app.py:68-71 | A playable note sits on the lowest string that reaches it, at fret `midi - base` in 0..12 |
| BatchInput.ParseEntry | app.py:212 | The unpacking `n, d` and `(n.strip(), float(d))` succeed iff there are exactly two fields and `float` takes the second. The pair is then the stripped note and that duration; otherwise the error is the wrong field count, or else the duration text `float` refused |
| BatchInput.ParsePairsSuccess | app.py:212 | The comprehension succeeds iff every entry does, and then holds one pair per entry, in order |
| BatchInput.ParsePairsFailure | app.py:212 | A failure is the error of the first refused entry, and every entry before it is accepted |
| BatchInput.StepMeaning | app.py:211-212 | One piece is accepted iff it has exactly two comma fields and `float` takes the second. It then yields the stripped note and the duration; otherwise it yields the reason |
| BatchInput.ParsePiecesSuccess | app.py:211-212 | The pieces are accepted iff every piece is, and then yield one (stripped note, duration) pair per piece, in order |
| BatchInput.ParsePiecesFailure | app.py:211-212 | A refused batch names its first refused piece: the wrong field count, or else the duration text `float` rejects |
| BatchInput.PieceFields | app.py:211 | A `note,duration` piece of plain fields strips and splits back into those two fields |
| BatchInput.FormattedSplit | app.py:211 | Splitting formatted pairs on `;` gives one piece per pair |
| BatchInput.FormatParse | app.py:211-212 | Formatting plain pairs as batch text and parsing it back gives the notes unchanged and the durations `float` reads |
| BatchInput.PromptExample | app.py:207-212 | The prompt's example `D4,0.5; F#4,1.0; A4,0.25` gives three pairs: D4, F#4 and A4 with their durations |
| BatchInput.MissingDurationExample | app.py:211-212 | `D4; F#4,1.0` is refused at piece 0, which has one field |
| Advisor.LastFretSpec | app.py:235-240 | `last_fret` is unset iff every earlier row is dashed; otherwise it is the fret of the latest playable row |
| Advisor.FirstPlayableQuiet | app.py:237-238 | The first playable row never earns a suggestion |
| Advisor.AdvisoriesSpec | app.py:235-240 | Suggestions are in strictly increasing row order, and a row gets one iff it is playable, an earlier row is playable, and its fret differs from the latest such row's by more than 5 |
| Advisor.SuggestMovements | app.py:235-240 | The loop flags exactly the rows `Advisories` names |
| Advisor.JumpExample | app.py:238 | Frets 0 then 8 give exactly one suggestion, at the second row; frets 0 then 5 give none |

## Left out

- `freq_to_midi` and `midi_to_freq` (app.py:20-21, 39-40) use floating point and logarithms, and are not modelled.
- BatchInput.ParseEntry: the `entry` index carried by `WrongFieldCount` and `BadDuration` is an addition of the model. Python's `ValueError` at app.py:212 names no entry, only the unpacking count or the text `float` refused.
- BatchInput.ParseBatch: `float(d)` is the `duration` parameter, a function from the field text to an optional value, so the durations are not parsed here.
- Pitch.LexSound: the pattern's `\d` accepts only the ASCII digits 0-9. Python also accepts other Unicode decimal digits, which `int` then reads.
- The composition of the splitter and `tab_from_notes` (app.py:213) is not stated as one member. Each half is modelled on its own.
- Advisor.SuggestMovements: it returns the indices of the flagged rows. The advisory text the app writes for each row is presentation.
- The `if note_input:` and `if tab:` guards, the display of each row, and the `except` that shows the error (app.py:209-217, 234) are user interface.
- Plotting, the fretboard image, PDF and MIDI export, audio analysis, YouTube download and the Streamlit UI are rendering and I/O, and are not modelled.
- Tablature rows are a datatype rather than a Python dictionary. The dash sentinel is the `Dash` case rather than the string `'—'`.
