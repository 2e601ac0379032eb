/**
 * Validation written as a ladder of early returns: the first check of a fixed
 * order that fails decides the error.  Both the upload form handler and the
 * upload endpoint are proved equal to this reading of their ladders.
 */
module Checks {
  import opened Wrappers

  /** The first entry of `order` whose check fails, or None when every check passes. */
  function FirstFailing<E>(order: seq<E>, fails: E -> bool): (r: Option<E>)
    ensures r.None? <==> forall k :: 0 <= k < |order| ==> !fails(order[k])
    ensures r.Some? ==> exists k :: 0 <= k < |order| && order[k] == r.value && fails(order[k])
                                    && forall j :: 0 <= j < k ==> !fails(order[j])
  {
    if order == [] then None
    else if fails(order[0]) then Some(order[0])
    else
      var r := FirstFailing(order[1..], fails);
      assert forall k :: 1 <= k < |order| ==> order[k] == order[1..][k - 1];
      r
  }

  /** A check that fails after only passing ones is the one reported. */
  lemma {:induction false} FirstFailingAt<E>(order: seq<E>, fails: E -> bool, k: nat)
    requires k < |order| && fails(order[k])
    requires forall j :: 0 <= j < k ==> !fails(order[j])
    ensures FirstFailing(order, fails) == Some(order[k])
  {
    if k > 0 {
      assert !fails(order[0]);
      FirstFailingAt(order[1..], fails, k - 1);
    }
  }
}
