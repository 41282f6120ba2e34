/**
 * A guard chain over a list: the checks run on the elements in order and
 * the first complaint stops the chain, as the `for` loops with early
 * `return`s in the pages do.
 */
module Checks {
  import opened Wrappers

  /** The first complaint `check` raises about an element of `xs`, or None
      when it raises none. */
  function FirstComplaint<T>(xs: seq<T>, check: T -> Option<string>): (r: Option<string>)
    ensures r.None? <==> forall i :: 0 <= i < |xs| ==> check(xs[i]).None?
    ensures r.Some? ==> exists k :: 0 <= k < |xs| && r == check(xs[k]) && forall i :: 0 <= i < k ==> check(xs[i]).None?
  {
    if xs == [] then None
    else if check(xs[0]).Some? then check(xs[0])
    else
      var r := FirstComplaint(xs[1..], check);
      FirstComplaintStep(xs, check, r);
      r
  }

  /** The first element passes, so the rest decides. */
  lemma FirstComplaintStep<T>(xs: seq<T>, check: T -> Option<string>, r: Option<string>)
    requires xs != [] && check(xs[0]).None?
    requires r.None? <==> forall i :: 0 <= i < |xs| - 1 ==> check(xs[1..][i]).None?
    requires r.Some? ==> exists k :: 0 <= k < |xs| - 1 && r == check(xs[1..][k]) && forall i :: 0 <= i < k ==> check(xs[1..][i]).None?
    ensures r.None? <==> forall i :: 0 <= i < |xs| ==> check(xs[i]).None?
    ensures r.Some? ==> exists k :: 0 <= k < |xs| && r == check(xs[k]) && forall i :: 0 <= i < k ==> check(xs[i]).None?
  {
    if r.None? {
      forall i | 0 <= i < |xs| ensures check(xs[i]).None? {
        if i > 0 { assert xs[i] == xs[1..][i - 1]; }
      }
    } else {
      var k :| 0 <= k < |xs| - 1 && r == check(xs[1..][k]) && forall i :: 0 <= i < k ==> check(xs[1..][i]).None?;
      assert xs[k + 1] == xs[1..][k];
      forall i | 0 <= i < k + 1 ensures check(xs[i]).None? {
        if i > 0 { assert xs[i] == xs[1..][i - 1]; }
      }
      assert r == check(xs[k + 1]);
    }
    if !(forall i :: 0 <= i < |xs| - 1 ==> check(xs[1..][i]).None?) {
      var i :| 0 <= i < |xs| - 1 && check(xs[1..][i]).Some?;
      assert xs[1..][i] == xs[i + 1];
    }
  }
}
