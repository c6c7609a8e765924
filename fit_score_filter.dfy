/** The fit-score filter popover: the five score buckets it offers and the
    checkbox toggle on the selected bucket values. */
module FitScoreFilter {

  /** The bucket values offered, top bucket first; 50 stands for "below 60". */
  const ScoreRanges: seq<int> := [90, 80, 70, 60, 50]

  /** `s.filter(x => x !== score)`. */
  function Without(s: seq<int>, score: int): (r: seq<int>)
    ensures score !in r
    ensures forall x | x != score :: x in r <==> x in s
    ensures |r| <= |s|
    decreases |s|
  {
    if s == [] then []
    else
      var init := Without(s[..|s| - 1], score);
      assert forall x :: x in s <==> x in s[..|s| - 1] || x == s[|s| - 1];
      if s[|s| - 1] == score then init else init + [s[|s| - 1]]
  }

  /** `handleScoreToggle`: drop every copy of a selected value, or append an
      unselected one at the end. */
  function Toggle(selected: seq<int>, score: int): (r: seq<int>)
    ensures score in r <==> score !in selected
    ensures forall x | x != score :: x in r <==> x in selected
  {
    if score in selected then Without(selected, score) else selected + [score]
  }

  /** Filtering out a value that does not occur changes nothing. */
  lemma {:induction false} WithoutAbsent(s: seq<int>, score: int)
    requires score !in s
    ensures Without(s, score) == s
    decreases |s|
  {
    if s != [] {
      WithoutAbsent(s[..|s| - 1], score);
      assert s == s[..|s| - 1] + [s[|s| - 1]];
    }
  }

  /** Filtering distributes over concatenation. */
  lemma {:induction false} WithoutAppend(a: seq<int>, b: seq<int>, score: int)
    ensures Without(a + b, score) == Without(a, score) + Without(b, score)
    decreases |b|
  {
    if b == [] {
      assert a + b == a;
    } else {
      var b' := b[..|b| - 1];
      assert (a + b)[..|a + b| - 1] == a + b';
      WithoutAppend(a, b', score);
    }
  }

  /** Toggling flips whether the value is selected, and leaves every other value's
      selection as it was, in the same relative order and with the same repeats. */
  lemma ToggleFlipsOnlyItsValue(selected: seq<int>, score: int)
    ensures score in Toggle(selected, score) <==> score !in selected
    ensures Without(Toggle(selected, score), score) == Without(selected, score)
  {
    if score in selected {
      WithoutAbsent(Without(selected, score), score);
    } else {
      WithoutAppend(selected, [score], score);
      assert Without([score], score) == [] by {
        assert [score][..0] == [];
      }
    }
  }

  /** Toggling an unselected value twice restores the selection. */
  lemma ToggleTwiceRestores(selected: seq<int>, score: int)
    requires score !in selected
    ensures Toggle(Toggle(selected, score), score) == selected
  {
    WithoutAppend(selected, [score], score);
    WithoutAbsent(selected, score);
    assert Without([score], score) == [] by {
      assert [score][..0] == [];
    }
  }
}
