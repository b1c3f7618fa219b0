/**
 * The three list updates the admin panels and the breed form apply to their
 * rows: append (`[...xs, x]`), replace the rows a test selects (`map`), and
 * drop the rows a test selects (`filter`).
 */
module ListUpdates {

  /** `xs.filter(x => !matches(x))`. */
  function RemoveWhere<T>(xs: seq<T>, matches: T -> bool): (r: seq<T>)
    ensures |r| <= |xs|
    ensures forall i :: 0 <= i < |r| ==> r[i] in xs && !matches(r[i])
    ensures forall i :: 0 <= i < |xs| && !matches(xs[i]) ==> xs[i] in r
  {
    if xs == [] then []
    else
      var rest := RemoveWhere(xs[1..], matches);
      if matches(xs[0]) then rest else [xs[0]] + rest
  }

  /** Removing distributes over concatenation, so the kept rows stay in their order. */
  lemma {:induction false} RemoveWhereAppend<T>(xs: seq<T>, ys: seq<T>, matches: T -> bool)
    ensures RemoveWhere(xs + ys, matches) == RemoveWhere(xs, matches) + RemoveWhere(ys, matches)
  {
    if xs != [] {
      assert (xs + ys)[0] == xs[0] && (xs + ys)[1..] == xs[1..] + ys;
      RemoveWhereAppend(xs[1..], ys, matches);
      if !matches(xs[0]) {
        assert [xs[0]] + (RemoveWhere(xs[1..], matches) + RemoveWhere(ys, matches))
            == ([xs[0]] + RemoveWhere(xs[1..], matches)) + RemoveWhere(ys, matches);
      }
    } else {
      assert xs + ys == ys;
    }
  }

  /** A list with no selected row is left as it is. */
  lemma {:induction false} RemoveWhereNoMatch<T>(xs: seq<T>, matches: T -> bool)
    requires forall i :: 0 <= i < |xs| ==> !matches(xs[i])
    ensures RemoveWhere(xs, matches) == xs
  {
    if xs != [] {
      RemoveWhereNoMatch(xs[1..], matches);
    }
  }

  /** `xs.map(x => matches(x) ? y : x)`. */
  function ReplaceWhere<T>(xs: seq<T>, matches: T -> bool, y: T): (r: seq<T>)
    ensures |r| == |xs|
    ensures forall i :: 0 <= i < |xs| ==> r[i] == (if matches(xs[i]) then y else xs[i])
  {
    seq(|xs|, i requires 0 <= i < |xs| => if matches(xs[i]) then y else xs[i])
  }

  /**
   * Replacing with a row that is itself selected and then removing the selected
   * rows is the same as removing them straight away: unselected rows are untouched.
   */
  lemma {:induction false} RemoveAfterReplace<T>(xs: seq<T>, matches: T -> bool, y: T)
    requires matches(y)
    ensures RemoveWhere(ReplaceWhere(xs, matches, y), matches) == RemoveWhere(xs, matches)
  {
    if xs != [] {
      var r := ReplaceWhere(xs, matches, y);
      assert r[1..] == ReplaceWhere(xs[1..], matches, y);
      RemoveAfterReplace(xs[1..], matches, y);
    }
  }
}
