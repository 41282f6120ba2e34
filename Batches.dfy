/**
 * A batch of writes issued one at a time, as the `for` loop of `saveAll`
 * issues its goal updates: each request is sent, its reply is inspected,
 * and the first failure stops the batch. The request for each element is
 * given by a function, so that the loop is reasoned about once, for any
 * element and request type.
 */
module Batches {
  import opened Domain

  /** `xs.map(f)`, built from the back so that a loop that handles the
      elements in order extends it one element at a time. */
  function MapSeq<A, B>(f: A -> B, xs: seq<A>): (r: seq<B>)
    ensures |r| == |xs|
    ensures forall i :: 0 <= i < |xs| ==> r[i] == f(xs[i])
  {
    if xs == [] then []
    else
      var init := xs[..|xs| - 1];
      assert forall i :: 0 <= i < |init| ==> init[i] == xs[i];
      MapSeq(f, init) + [f(xs[|xs| - 1])]
  }

  /** Appending in two steps is appending once. A proof step: the write
      phase's requests are joined to the ones sent before it. */
  lemma AppendAssociative<T>(a: seq<T>, b: seq<T>, c: seq<T>)
    ensures a + b + c == a + (b + c)
  {
  }

  /** Handling one more element appends its request. */
  lemma MapSeqPrefix<A, B>(f: A -> B, xs: seq<A>, i: int)
    requires 0 <= i < |xs|
    ensures MapSeq(f, xs[..i + 1]) == MapSeq(f, xs[..i]) + [f(xs[i])]
  {
    assert xs[..i + 1][..i] == xs[..i];
  }

  /** The reply to the `i`-th write; a write with no reply given counts as
      one that succeeded. */
  function ReplyAt(replies: seq<WriteReply>, i: nat): WriteReply {
    if i < |replies| then replies[i] else Ok(())
  }

  /** Index of the first of `n` writes that fails, or `n` if none does. */
  function FirstFailure(replies: seq<WriteReply>, n: nat): (k: nat)
    ensures k <= n
    ensures forall i :: 0 <= i < k ==> ReplyAt(replies, i).Ok?
    ensures k < n ==> ReplyAt(replies, k).Err?
  {
    if n == 0 then 0
    else
      var k := FirstFailure(replies, n - 1);
      if k < n - 1 then k
      else if ReplyAt(replies, n - 1).Err? then n - 1
      else n
  }

  /** The first failure is where the replies before it succeed and it
      fails, or, past the end, where every reply succeeds. */
  lemma FirstFailureAt(replies: seq<WriteReply>, n: nat, k: nat)
    requires k <= n
    requires forall i :: 0 <= i < k ==> ReplyAt(replies, i).Ok?
    requires k < n ==> ReplyAt(replies, k).Err?
    ensures FirstFailure(replies, n) == k
  {
  }

  /** Issues `request(x)` for each `x` of `xs` in order, up to and including
      the first whose reply fails; `k` is the index of that write, or `|xs|`
      when every write succeeds. */
  method IssueUntilFailure<A, B>(request: A -> B, xs: seq<A>, replies: seq<WriteReply>)
    returns (issued: seq<B>, k: nat)
    ensures k == FirstFailure(replies, |xs|)
    ensures k < |xs| ==> issued == MapSeq(request, xs[..k + 1])
    ensures k == |xs| ==> issued == MapSeq(request, xs)
  {
    issued := [];
    k := |xs|;
    var i := 0;
    while i < |xs|
      invariant 0 <= i <= |xs|
      invariant forall j :: 0 <= j < i ==> ReplyAt(replies, j).Ok?
      invariant issued == MapSeq(request, xs[..i])
    {
      MapSeqPrefix(request, xs, i);
      issued := issued + [request(xs[i])];
      if ReplyAt(replies, i).Err? {
        k := i;
        break;
      }
      i := i + 1;
    }
    assert xs[..|xs|] == xs;
    FirstFailureAt(replies, |xs|, k);
  }
}
