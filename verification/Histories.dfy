/** Facts that hold since something last made them hold. */
module Histories {

  /** Turned on at some earlier step, and not turned off after it. */
  ghost predicate LastOn(on: seq<bool>, off: seq<bool>, i: nat)
    requires i <= |on| == |off|
  {
    exists j :: 0 <= j < i && on[j] && forall k | j < k < i :: !off[k]
  }

  lemma LastOnNext(on: seq<bool>, off: seq<bool>, i: nat)
    requires i < |on| == |off|
    ensures LastOn(on, off, i + 1) <==> on[i] || (LastOn(on, off, i) && !off[i])
  {
    if LastOn(on, off, i + 1) && !on[i] {
      var j :| 0 <= j < i + 1 && on[j] && forall k | j < k < i + 1 :: !off[k];
      assert j < i;
    }
    if LastOn(on, off, i) && !off[i] {
      var j :| 0 <= j < i && on[j] && forall k | j < k < i :: !off[k];
      assert forall k | j < k < i + 1 :: !off[k];
    }
  }

  /** What is turned on and off like that holds exactly if it was turned on last. */
  lemma {:induction false} HoldsExactly(x: seq<bool>, on: seq<bool>, off: seq<bool>, i: nat)
    requires i <= |on| == |off| && |x| == |on| + 1 && !x[0]
    requires forall k | 0 <= k < |on| :: x[k + 1] <==> on[k] || (x[k] && !off[k])
    ensures x[i] <==> LastOn(on, off, i)
  {
    if i > 0 {
      HoldsExactly(x, on, off, i - 1);
      LastOnNext(on, off, i - 1);
    }
  }
}
