/**
 * The toggle shared by the category and tool filter bars: a selected value
 * is filtered out, an unselected one is appended at the end.
 */
module Selection {
  import opened Lists

  /** `includes(x) ? xs.filter((y) => y !== x) : [...xs, x]`. */
  function Toggle<T(==)>(xs: seq<T>, x: T): (r: seq<T>)
    ensures x in r <==> x !in xs
    ensures x !in xs ==> r == xs + [x] && |r| == |xs| + 1
    ensures x in xs ==> |r| < |xs|
  {
    if x in xs then
      RemoveShorter(xs, x);
      Remove(xs, x)
    else xs + [x]
  }

  /** Removing a value that occurs shortens the list. */
  lemma {:induction false} RemoveShorter<T>(xs: seq<T>, x: T)
    requires x in xs
    ensures |Remove(xs, x)| < |xs|
  {
    if xs[0] != x {
      assert x in xs[1..] by {
        var i :| 0 <= i < |xs| && xs[i] == x;
        assert xs[1..][i - 1] == x;
      }
      RemoveShorter(xs[1..], x);
    }
  }

  /**
   * A toggle changes nothing but the toggled value: with every occurrence of
   * it taken out, the list before and after is the same, in the same order.
   */
  lemma ToggleKeepsOthers<T>(xs: seq<T>, x: T)
    ensures Remove(Toggle(xs, x), x) == Remove(xs, x)
  {
    if x in xs {
      RemoveAbsent(Remove(xs, x), x);
    } else {
      RemoveAppend(xs, [x], x);
      RemoveAbsent(xs, x);
      assert Remove([x], x) == [];
    }
  }

  /** Toggling an unselected value twice gives back the original list. */
  lemma ToggleTwice<T>(xs: seq<T>, x: T)
    requires x !in xs
    ensures Toggle(Toggle(xs, x), x) == xs
  {
    RemoveAppend(xs, [x], x);
    RemoveAbsent(xs, x);
    assert Remove([x], x) == [];
  }

  /** A list without repeats keeps that shape through a toggle. */
  lemma ToggleNoDuplicates<T>(xs: seq<T>, x: T)
    requires NoDuplicates(xs)
    ensures NoDuplicates(Toggle(xs, x))
  {
    if x in xs {
      RemoveNoDuplicates(xs, x);
    }
  }

  /** `clearAll`: the empty selection. */
  function ClearAll<T>(): (r: seq<T>)
    ensures |r| == 0
  {
    []
  }
}
