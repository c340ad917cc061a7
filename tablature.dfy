/** `tab_from_notes` in app.py: one tablature row per (note, duration) pair,
    placed at the first position `find_positions` offers. */
module Tablature {
  import opened Outcomes
  import opened Pitch
  import opened Fretboard

  /** A tablature cell: a value, or the dash the source writes when a note
      lies outside the neck. */
  datatype Slot<T> = Dash | Value(v: T)

  /** One row: the note text as given, its string and fret, and its
      duration, which the builder carries along without looking at it. */
  datatype TabEntry<D> = TabEntry(note: string, onString: Slot<StringName>, fret: Slot<int>, duration: D)

  /** The row for a note that parsed to `midi` (app.py lines 68-73). */
  function EntryFor<D>(note: string, midi: int, duration: D): TabEntry<D>
  {
    var pos := FindPositions(midi);
    if pos == [] then TabEntry(note, Dash, Dash, duration)
    else TabEntry(note, Value(pos[0].onString), Value(pos[0].fret), duration)
  }

  /** What `tab_from_notes` computes from the first `n` pairs, one pair at a
      time from the front: the rows so far, or the error of the first note
      that does not parse. The note parser is a parameter; `tab_from_notes`
      uses `note_to_midi`, and the lemmas below hold for any parser. */
  function TabulateUpTo<D>(notes: seq<(string, D)>, parse: string -> Result<int, NoteError>, n: nat): Result<seq<TabEntry<D>>, NoteError>
    requires n <= |notes|
  {
    if n == 0 then Success([])
    else
      var prefix := TabulateUpTo(notes, parse, n - 1);
      var (note, duration) := notes[n - 1];
      if prefix.Failure? then prefix
      else match parse(note)
        case Failure(e) => Failure(e)
        case Success(midi) => Success(prefix.value + [EntryFor(note, midi, duration)])
  }

  /** The whole of `tab_from_notes`. */
  function Tabulate<D>(notes: seq<(string, D)>, parse: string -> Result<int, NoteError>): Result<seq<TabEntry<D>>, NoteError>
  {
    TabulateUpTo(notes, parse, |notes|)
  }

  /** Once the first `k` pairs have failed, so have the first `n`, for any
      `n` from `k` on, with the same error. */
  lemma {:induction false} TabulateFailed<D>(notes: seq<(string, D)>, parse: string -> Result<int, NoteError>, k: nat, n: nat)
    requires k <= n <= |notes| && TabulateUpTo(notes, parse, k).Failure?
    ensures TabulateUpTo(notes, parse, n) == TabulateUpTo(notes, parse, k)
    decreases n
  {
    if n > k {
      TabulateFailed(notes, parse, k, n - 1);
    }
  }

  /** The first `n` pairs tabulate exactly when each of their notes parses,
      and then give one row per pair, in input order, with the note text and
      duration copied and the row placed by the note's MIDI number. */
  lemma {:induction false} TabulateUpToSuccess<D>(notes: seq<(string, D)>, parse: string -> Result<int, NoteError>, n: nat)
    requires n <= |notes|
    ensures TabulateUpTo(notes, parse, n).Success? <==> forall i :: 0 <= i < n ==> parse(notes[i].0).Success?
    ensures TabulateUpTo(notes, parse, n).Success? ==> |TabulateUpTo(notes, parse, n).value| == n
    ensures TabulateUpTo(notes, parse, n).Success? ==> forall i :: 0 <= i < n ==>
              TabulateUpTo(notes, parse, n).value[i] == EntryFor(notes[i].0, parse(notes[i].0).value, notes[i].1)
  {
    if n > 0 {
      TabulateUpToSuccess(notes, parse, n - 1);
    }
  }

  /** The tablature succeeds exactly when every note parses, and then holds
      one row per pair, in input order, with the note text and duration
      copied and the row placed by the note's MIDI number. */
  lemma TabulateSuccess<D>(notes: seq<(string, D)>, parse: string -> Result<int, NoteError>)
    ensures Tabulate(notes, parse).Success? <==> forall i :: 0 <= i < |notes| ==> parse(notes[i].0).Success?
    ensures Tabulate(notes, parse).Success? ==> |Tabulate(notes, parse).value| == |notes|
    ensures Tabulate(notes, parse).Success? ==> forall i :: 0 <= i < |notes| ==>
              Tabulate(notes, parse).value[i] == EntryFor(notes[i].0, parse(notes[i].0).value, notes[i].1)
  {
    TabulateUpToSuccess(notes, parse, |notes|);
  }

  /** When the first `n` pairs fail, they fail with the error of the first
      note among them that does not parse. */
  lemma {:induction false} TabulateUpToFailure<D>(notes: seq<(string, D)>, parse: string -> Result<int, NoteError>, n: nat)
    requires n <= |notes| && TabulateUpTo(notes, parse, n).Failure?
    ensures exists k :: 0 <= k < n && parse(notes[k].0) == Failure(TabulateUpTo(notes, parse, n).error)
                        && forall j :: 0 <= j < k ==> parse(notes[j].0).Success?
  {
    if TabulateUpTo(notes, parse, n - 1).Failure? {
      TabulateUpToFailure(notes, parse, n - 1);
    } else {
      TabulateUpToSuccess(notes, parse, n - 1);
      assert parse(notes[n - 1].0) == Failure(TabulateUpTo(notes, parse, n).error);
    }
  }

  /** When the tablature fails, it fails with the error of the first note
      that does not parse: no partial tablature is returned. */
  lemma TabulateFailure<D>(notes: seq<(string, D)>, parse: string -> Result<int, NoteError>)
    requires Tabulate(notes, parse).Failure?
    ensures exists k :: 0 <= k < |notes| && parse(notes[k].0) == Failure(Tabulate(notes, parse).error)
                        && forall j :: 0 <= j < k ==> parse(notes[j].0).Success?
  {
    TabulateUpToFailure(notes, parse, |notes|);
  }

  /** One more pair whose note parses adds its row. */
  lemma TabulateStep<D>(notes: seq<(string, D)>, parse: string -> Result<int, NoteError>, n: nat, tab: seq<TabEntry<D>>, midi: int)
    requires n < |notes| && TabulateUpTo(notes, parse, n).Success? && TabulateUpTo(notes, parse, n).value == tab
    requires parse(notes[n].0).Success? && parse(notes[n].0).value == midi
    ensures TabulateUpTo(notes, parse, n + 1).Success?
    ensures TabulateUpTo(notes, parse, n + 1).value == tab + [EntryFor(notes[n].0, midi, notes[n].1)]
  {
  }

  /** A pair whose note does not parse, after pairs that all did, fails the
      whole list with its error. */
  lemma TabulateStops<D>(notes: seq<(string, D)>, parse: string -> Result<int, NoteError>, n: nat, e: NoteError)
    requires n < |notes| && TabulateUpTo(notes, parse, n).Success?
    requires parse(notes[n].0).Failure? && parse(notes[n].0).error == e
    ensures Tabulate(notes, parse).Failure? && Tabulate(notes, parse).error == e
  {
    TabulateFailed(notes, parse, n + 1, |notes|);
  }

  /** `tab_from_notes` (app.py lines 64-74): the loop parses each note with
      `note_to_midi`, appends one row per pair and stops at the first note
      that does not parse. */
  method TabFromNotes<D>(notes: seq<(string, D)>) returns (r: Result<seq<TabEntry<D>>, NoteError>)
    ensures r == Tabulate(notes, NoteToMidi)
  {
    var tab: seq<TabEntry<D>> := [];
    var i := 0;
    while i < |notes|
      invariant 0 <= i <= |notes|
      invariant TabulateUpTo(notes, NoteToMidi, i).Success? && TabulateUpTo(notes, NoteToMidi, i).value == tab
    {
      var note, dur := notes[i].0, notes[i].1;
      var parsed := NoteToMidi(note);
      if parsed.Failure? {
        TabulateStops(notes, NoteToMidi, i, parsed.error);
        return Failure(parsed.error);
      }
      var midi := parsed.value;
      var entry := EntryFor(note, midi, dur);
      TabulateStep(notes, NoteToMidi, i, tab, midi);
      tab := tab + [entry];
      i := i + 1;
    }
    return Success(tab);
  }

  /** The string and fret columns are dashed together, and exactly for notes
      outside MIDI 48 to 74, the range the four strings cover. */
  lemma EntryDashes<D>(note: string, midi: int, duration: D)
    ensures var e := EntryFor(note, midi, duration);
      && (e.onString.Dash? <==> e.fret.Dash?)
      && (e.fret.Dash? <==> !(48 <= midi <= 74))
      && e.note == note && e.duration == duration
  {
    PlayableRange(midi);
  }

  /** A placed note sits on the lowest string, in declaration order, that
      reaches it, at fret `midi - base`, which lies in 0 to 12. */
  lemma EntryPlacement<D>(note: string, midi: int, duration: D)
    requires 48 <= midi <= 74
    ensures var e := EntryFor(note, midi, duration);
      && e.onString.Value? && e.fret.Value?
      && Reaches(e.onString.v, midi) && e.fret.v == midi - Base(e.onString.v)
      && 0 <= e.fret.v <= MAX_FRET
      && forall s :: Rank(s) < Rank(e.onString.v) ==> !Reaches(s, midi)
  {
    PlayableRange(midi);
    FirstPosition(midi);
  }
}
