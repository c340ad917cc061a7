/** The movement advisor of app.py (lines 235-240): it walks the tablature,
    remembers the fret of the last playable row, and suggests another string
    for every row whose fret lies more than five frets from that one. */
module Advisor {
  import opened Outcomes
  import opened Tablature

  /** A jump of more than this many frets earns a suggestion. */
  const JUMP_THRESHOLD := 5

  function Abs(x: int): nat
  {
    if x < 0 then -x else x
  }

  /** `last_fret` as the loop holds it on reaching row `i`: the fret of the
      latest row before `i` that is not dashed, or `None`. */
  function LastFretBefore<D>(tab: seq<TabEntry<D>>, i: nat): Option<int>
    requires i <= |tab|
  {
    if i == 0 then None
    else if tab[i - 1].fret.Value? then Some(tab[i - 1].fret.v)
    else LastFretBefore(tab, i - 1)
  }

  /** Whether row `i` earns a suggestion: it is playable, an earlier row was
      playable, and the two frets lie more than five apart. */
  predicate Fires<D>(tab: seq<TabEntry<D>>, i: nat)
    requires i < |tab|
  {
    && tab[i].fret.Value?
    && LastFretBefore(tab, i).Some?
    && Abs(tab[i].fret.v - LastFretBefore(tab, i).value) > JUMP_THRESHOLD
  }

  /** The rows below `n` that earn a suggestion, in table order. */
  function Advisories<D>(tab: seq<TabEntry<D>>, n: nat): seq<nat>
    requires n <= |tab|
  {
    if n == 0 then []
    else if Fires(tab, n - 1) then Advisories(tab, n - 1) + [n - 1]
    else Advisories(tab, n - 1)
  }

  /** `last_fret` is `None` exactly while every earlier row is dashed, and
      otherwise the fret of the latest playable row, with only dashed rows
      after it. */
  lemma {:induction false} LastFretSpec<D>(tab: seq<TabEntry<D>>, i: nat)
    requires i <= |tab|
    ensures LastFretBefore(tab, i).None? <==> forall j :: 0 <= j < i ==> tab[j].fret.Dash?
    ensures LastFretBefore(tab, i).Some? ==>
              exists j :: 0 <= j < i && tab[j].fret == Value(LastFretBefore(tab, i).value)
                          && forall k :: j < k < i ==> tab[k].fret.Dash?
  {
    if i > 0 {
      LastFretSpec(tab, i - 1);
      if tab[i - 1].fret.Dash? {
        if LastFretBefore(tab, i).Some? {
          var j :| 0 <= j < i - 1 && tab[j].fret == Value(LastFretBefore(tab, i).value)
                   && forall k :: j < k < i - 1 ==> tab[k].fret.Dash?;
          assert forall k :: j < k < i ==> tab[k].fret.Dash?;
        }
      } else {
        assert tab[i - 1].fret == Value(LastFretBefore(tab, i).value);
      }
    }
  }

  /** The first playable row never earns a suggestion, whatever its fret. */
  lemma FirstPlayableQuiet<D>(tab: seq<TabEntry<D>>, i: nat)
    requires i < |tab| && forall j :: 0 <= j < i ==> tab[j].fret.Dash?
    ensures !Fires(tab, i)
  {
    LastFretSpec(tab, i);
  }

  /** The suggestions name rows in strictly increasing order, each below
      `n`, and exactly the rows below `n` that earn one. */
  lemma {:induction false} AdvisoriesSpec<D>(tab: seq<TabEntry<D>>, n: nat)
    requires n <= |tab|
    ensures forall j, k :: 0 <= j < k < |Advisories(tab, n)| ==> Advisories(tab, n)[j] < Advisories(tab, n)[k]
    ensures forall k :: 0 <= k < |Advisories(tab, n)| ==> Advisories(tab, n)[k] < n
    ensures forall i :: 0 <= i < n ==> (i in Advisories(tab, n) <==> Fires(tab, i))
  {
    if n > 0 {
      AdvisoriesSpec(tab, n - 1);
    }
  }

  /** The advisor loop of app.py lines 235-240, returning the rows it writes
      a suggestion for. */
  method SuggestMovements<D>(tab: seq<TabEntry<D>>) returns (fired: seq<nat>)
    ensures fired == Advisories(tab, |tab|)
  {
    var last: Option<int> := None;
    fired := [];
    for i := 0 to |tab|
      invariant last == LastFretBefore(tab, i)
      invariant fired == Advisories(tab, i)
    {
      if tab[i].fret.Value? {
        var fret := tab[i].fret.v;
        if last.Some? && Abs(fret - last.value) > JUMP_THRESHOLD {
          fired := fired + [i];
        }
        last := Some(fret);
      }
    }
  }

  /** Frets 0 then 8 earn exactly one suggestion, for the second row; frets
      0 then 5 earn none, since the jump must exceed five frets. */
  lemma JumpExample<D>(a: TabEntry<D>, b: TabEntry<D>, c: TabEntry<D>)
    requires a.fret == Value(0) && b.fret == Value(8) && c.fret == Value(5)
    ensures Advisories([a, b], 2) == [1]
    ensures Advisories([a, c], 2) == []
  {
    var jump, step := [a, b], [a, c];
    assert LastFretBefore(jump, 1) == Some(0) && LastFretBefore(step, 1) == Some(0);
    assert !Fires(jump, 0) && Fires(jump, 1);
    assert !Fires(step, 0) && !Fires(step, 1);
    assert Advisories(jump, 1) == Advisories(jump, 0) == [];
    assert Advisories(step, 1) == Advisories(step, 0) == [];
    assert Advisories(jump, 2) == [] + [1];
  }
}
