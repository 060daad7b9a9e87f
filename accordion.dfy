/** The skills accordion (`toggleSkill`): one open flag per accordion item. */
module Accordion {

  /** No two items are open at once. */
  predicate AtMostOneOpen(open: seq<bool>)
  {
    forall j, k | 0 <= j < |open| && 0 <= k < |open| && open[j] && open[k] :: j == k
  }

  /** Every item other than `i` is closed. */
  predicate OthersClosed(open: seq<bool>, i: nat)
  {
    forall k | 0 <= k < |open| && k != i :: !open[k]
  }

  /** The flags after the two steps of a click on item `i`: every other open item is
      closed, then item `i` is flipped from the state it had before the click. */
  function Toggled(open: seq<bool>, i: nat): (r: seq<bool>)
    requires i < |open|
    ensures |r| == |open|
    ensures OthersClosed(r, i)
    ensures r[i] == !open[i]
  {
    var othersClosed := seq(|open|, k requires 0 <= k < |open| => if k == i then open[k] else false);
    othersClosed[i := !open[i]]
  }

  /** Since every other item is closed after a click, at most one item is open. */
  lemma ToggledState(open: seq<bool>, i: nat)
    requires i < |open|
    ensures AtMostOneOpen(Toggled(open, i))
  {
  }

  /** From a state in which nothing but item `i` is open (which every click leaves
      behind), two clicks on `i` restore it. */
  lemma ToggleTwiceRestores(open: seq<bool>, i: nat)
    requires i < |open| && OthersClosed(open, i)
    ensures Toggled(Toggled(open, i), i) == open
  {
    assert forall k | 0 <= k < |open| :: Toggled(Toggled(open, i), i)[k] == open[k];
  }

  /** A click on an item other than the open one moves the single open item there. */
  lemma ToggleOtherMovesOpen(open: seq<bool>, i: nat, j: nat)
    requires j < |open| && i < |open| && i != j
    requires open[j] && AtMostOneOpen(open)
    ensures Toggled(open, i) == seq(|open|, k requires 0 <= k < |open| => k == i)
  {
  }

  /** The handler: it reads whether item `i` is open, closes every other open item in
      document order, then toggles item `i`. */
  method ToggleSkill(open: array<bool>, i: nat)
    requires i < open.Length
    modifies open
    ensures open[..] == Toggled(old(open[..]), i)
  {
    var isOpen := open[i];
    for k := 0 to open.Length
      invariant open[i] == isOpen
      invariant forall m | 0 <= m < k && m != i :: !open[m]
      invariant forall m | k <= m < open.Length :: open[m] == old(open[m])
    {
      if open[k] && k != i {
        open[k] := false;
      }
    }
    open[i] := !isOpen;
    assert forall m | 0 <= m < open.Length :: open[..][m] == Toggled(old(open[..]), i)[m];
  }
}
