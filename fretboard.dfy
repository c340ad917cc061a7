/** The four-string bouzouki and `find_positions` in app.py: where on the
    neck a MIDI note can be played. */
module Fretboard {

  /** The four strings in declaration order: Ντο (C), Φα (F), Λα (A), Ρε (D). */
  datatype StringName = Nto | Fa | La | Re

  /** Every string reaches twelve frets above its open pitch. */
  const MAX_FRET := 12

  /** The open-string MIDI number of each string (app.py line 16). */
  function Base(s: StringName): int
  {
    match s
    case Nto => 48
    case Fa => 53
    case La => 57
    case Re => 62
  }

  /** The strings with their bases, in declaration order, as
      `string_bases.items()` yields them. */
  const TUNING: seq<(StringName, int)> := [(Nto, Base(Nto)), (Fa, Base(Fa)), (La, Base(La)), (Re, Base(Re))]

  /** Position of a string in declaration order. */
  function Rank(s: StringName): nat
  {
    match s
    case Nto => 0
    case Fa => 1
    case La => 2
    case Re => 3
  }

  datatype Position = Position(onString: StringName, fret: int)

  /** Whether `midi` lies on string `s`, from the open string up to fret 12. */
  predicate Reaches(s: StringName, midi: int)
  {
    0 <= midi - Base(s) <= MAX_FRET
  }

  /** The list comprehension of `find_positions` over a run of strings. */
  function PositionsOn(strings: seq<(StringName, int)>, midi: int): (r: seq<Position>)
    ensures |r| <= |strings|
    ensures forall k :: 0 <= k < |r| ==> 0 <= r[k].fret <= MAX_FRET
  {
    if strings == [] then []
    else
      var (s, b) := strings[0];
      var here := if 0 <= midi - b <= MAX_FRET then [Position(s, midi - b)] else [];
      here + PositionsOn(strings[1..], midi)
  }

  /** `find_positions` (app.py lines 43-44). */
  function FindPositions(midi: int): seq<Position>
  {
    PositionsOn(TUNING, midi)
  }

  /** A run of the tuning table: each entry's MIDI number is its string's
      base, and the strings follow declaration order from rank `lo` on. */
  predicate TuningRun(strings: seq<(StringName, int)>, lo: nat)
  {
    forall k :: 0 <= k < |strings| ==> Base(strings[k].0) == strings[k].1 && Rank(strings[k].0) == lo + k
  }

  lemma TuningRunTail(strings: seq<(StringName, int)>, lo: nat)
    requires strings != [] && TuningRun(strings, lo)
    ensures TuningRun(strings[1..], lo + 1)
  {
    forall k | 0 <= k < |strings| - 1
      ensures Base(strings[1..][k].0) == strings[1..][k].1 && Rank(strings[1..][k].0) == lo + 1 + k
    {
      assert strings[1..][k] == strings[k + 1];
    }
  }

  /** Over a run of the tuning table, the comprehension lists exactly the
      reachable strings of that run, each at fret `midi - base`. */
  lemma {:induction false} PositionsOnMembers(strings: seq<(StringName, int)>, lo: nat, midi: int)
    requires TuningRun(strings, lo)
    ensures forall p :: p in PositionsOn(strings, midi) <==>
              lo <= Rank(p.onString) < lo + |strings| && Reaches(p.onString, midi) && p.fret == midi - Base(p.onString)
  {
    if strings != [] {
      var r := PositionsOn(strings, midi);
      var s := strings[0].0;
      TuningRunTail(strings, lo);
      PositionsOnMembers(strings[1..], lo + 1, midi);
      assert Rank(s) == lo && Base(s) == strings[0].1;
      forall p ensures p in r <==> lo <= Rank(p.onString) < lo + |strings| && Reaches(p.onString, midi) && p.fret == midi - Base(p.onString) {
        if Rank(p.onString) == lo {
          assert p.onString == s;
        }
      }
    }
  }

  /** Positions whose strings follow declaration order strictly. */
  predicate InStringOrder(ps: seq<Position>)
  {
    forall j, k :: 0 <= j < k < |ps| ==> Rank(ps[j].onString) < Rank(ps[k].onString)
  }

  lemma PrependInOrder(p: Position, rest: seq<Position>)
    requires InStringOrder(rest)
    requires forall q :: q in rest ==> Rank(p.onString) < Rank(q.onString)
    ensures InStringOrder([p] + rest)
  {
    var r := [p] + rest;
    forall j, k | 0 <= j < k < |r| ensures Rank(r[j].onString) < Rank(r[k].onString) {
      assert r[k] == rest[k - 1] && r[k] in rest;
      if j > 0 {
        assert r[j] == rest[j - 1];
      }
    }
  }

  /** Over a run of the tuning table, the comprehension keeps declaration
      order. */
  lemma {:induction false} PositionsOnOrdered(strings: seq<(StringName, int)>, lo: nat, midi: int)
    requires TuningRun(strings, lo)
    ensures InStringOrder(PositionsOn(strings, midi))
  {
    if strings != [] {
      var rest := PositionsOn(strings[1..], midi);
      var s := strings[0].0;
      TuningRunTail(strings, lo);
      PositionsOnMembers(strings[1..], lo + 1, midi);
      PositionsOnOrdered(strings[1..], lo + 1, midi);
      if 0 <= midi - strings[0].1 <= MAX_FRET {
        assert PositionsOn(strings, midi) == [Position(s, midi - strings[0].1)] + rest;
        assert Rank(s) == lo;
        PrependInOrder(Position(s, midi - strings[0].1), rest);
      } else {
        assert PositionsOn(strings, midi) == [] + rest;
        assert [] + rest == rest;
      }
    }
  }

  /** Over a run of the tuning table, the comprehension offers at most one
      position per string. */
  lemma PositionsOnDistinct(strings: seq<(StringName, int)>, lo: nat, midi: int)
    requires TuningRun(strings, lo)
    ensures var r := PositionsOn(strings, midi);
      forall j, k :: 0 <= j < k < |r| ==> r[j].onString != r[k].onString
  {
    PositionsOnOrdered(strings, lo, midi);
  }

  lemma TuningIsRun()
    ensures TuningRun(TUNING, 0)
  {
  }

  /** `find_positions` lists exactly the strings whose open pitch lies 0 to
      12 semitones below the note, each with fret `midi - base`. */
  lemma FindPositionsMembers(midi: int)
    ensures forall p :: p in FindPositions(midi) <==> Reaches(p.onString, midi) && p.fret == midi - Base(p.onString)
  {
    TuningIsRun();
    PositionsOnMembers(TUNING, 0, midi);
  }

  /** `find_positions` is empty exactly when no string reaches the note. */
  lemma FindPositionsEmpty(midi: int)
    ensures FindPositions(midi) == [] <==> forall s :: !Reaches(s, midi)
  {
    var r := FindPositions(midi);
    FindPositionsMembers(midi);
    if r != [] {
      assert r[0] in r;
    } else {
      forall s ensures !Reaches(s, midi) {
        assert Position(s, midi - Base(s)) !in r;
      }
    }
  }

  /** `find_positions` lists exactly the strings whose open pitch lies 0 to
      12 semitones below the note, each with fret `midi - base`, and in
      declaration order: at most four positions, each fret within 0..12,
      none at all exactly when no string reaches the note. */
  lemma FindPositionsSpec(midi: int)
    ensures forall p :: p in FindPositions(midi) <==> Reaches(p.onString, midi) && p.fret == midi - Base(p.onString)
    ensures InStringOrder(FindPositions(midi))
    ensures |FindPositions(midi)| <= 4
    ensures forall p :: p in FindPositions(midi) ==> 0 <= p.fret <= MAX_FRET
    ensures FindPositions(midi) == [] <==> forall s :: !Reaches(s, midi)
  {
    FindPositionsMembers(midi);
    FindPositionsEmpty(midi);
    TuningIsRun();
    PositionsOnOrdered(TUNING, 0, midi);
  }

  /** A note is playable somewhere exactly when it lies between the lowest
      open string (48) and twelve frets above the highest (74). */
  lemma PlayableRange(midi: int)
    ensures FindPositions(midi) != [] <==> 48 <= midi <= 74
  {
    FindPositionsSpec(midi);
    if 48 <= midi <= 74 {
      var s := if midi <= 60 then Nto else if midi <= 69 then La else Re;
      assert Position(s, midi - Base(s)) in FindPositions(midi);
    }
  }

  /** The first position `find_positions` offers is on the lowest string in
      declaration order that reaches the note. */
  lemma FirstPosition(midi: int)
    requires FindPositions(midi) != []
    ensures var p := FindPositions(midi)[0];
      && Reaches(p.onString, midi) && p.fret == midi - Base(p.onString)
      && forall s :: Rank(s) < Rank(p.onString) ==> !Reaches(s, midi)
  {
    FindPositionsSpec(midi);
    var r := FindPositions(midi);
    assert r[0] in r;
    forall s | Rank(s) < Rank(r[0].onString) ensures !Reaches(s, midi) {
      var q := Position(s, midi - Base(s));
      assert forall k :: 0 <= k < |r| ==> r[k] != q;
    }
  }

  /** MIDI 69 (A4) lies at the twelfth fret of Λα and the seventh of Ρε. */
  lemma A4Positions()
    ensures FindPositions(69) == [Position(La, 12), Position(Re, 7)]
  {
  }
}
