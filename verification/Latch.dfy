/** A flag told by its history: set by some event, cleared by others, the last word counting. */
module Latch {

  /** Some event of `h` sets the flag and none after it clears it. What sets it may depend on what came before. */
  ghost predicate Latched<E(!new)>(h: seq<E>, sets: (seq<E>, E) -> bool, clears: E -> bool) {
    exists i :: SetAt(h, sets, i) && forall j :: i < j < |h| ==> !clears(h[j])
  }

  ghost predicate SetAt<E(!new)>(h: seq<E>, sets: (seq<E>, E) -> bool, i: int) {
    0 <= i < |h| && sets(h[..i], h[i])
  }

  lemma {:induction false} LatchedStep<E(!new)>(h: seq<E>, e: E, sets: (seq<E>, E) -> bool, clears: E -> bool)
    ensures Latched(h + [e], sets, clears) <==> sets(h, e) || (Latched(h, sets, clears) && !clears(e))
  {
    var more := h + [e];
    assert more[..|h|] == h;
    if sets(h, e) {
      assert SetAt(more, sets, |h|);
    } else if Latched(h, sets, clears) && !clears(e) {
      var i :| SetAt(h, sets, i) && forall j :: i < j < |h| ==> !clears(h[j]);
      assert more[..i] == h[..i];
      assert SetAt(more, sets, i);
    } else if Latched(more, sets, clears) {
      var i :| SetAt(more, sets, i) && forall j :: i < j < |more| ==> !clears(more[j]);
      assert more[..i] == h[..i];
      assert !clears(more[|h|]);
      forall j | i < j < |h| ensures !clears(h[j]) { assert h[j] == more[j]; }
      assert SetAt(h, sets, i);
    }
  }
}
