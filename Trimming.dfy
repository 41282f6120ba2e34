/**
 * Stripping the elements that satisfy `p` from both ends of a sequence,
 * for any predicate `p`. `String.prototype.trim` is the instance for the
 * code points ECMAScript counts as white space or line terminators (see
 * `Text.Trim`).
 */
module Trimming {

  /** Every element of `s` satisfies `p`. */
  ghost predicate All<T>(p: T -> bool, s: seq<T>) {
    forall i :: 0 <= i < |s| ==> p(s[i])
  }

  /** Number of elements satisfying `p` at the start of `s`. */
  function Leading<T>(p: T -> bool, s: seq<T>): (k: nat)
    ensures k <= |s|
    ensures forall i :: 0 <= i < k ==> p(s[i])
    ensures k < |s| ==> !p(s[k])
  {
    if s != [] && p(s[0]) then
      var k := 1 + Leading(p, s[1..]);
      assert forall i :: 1 <= i < k ==> s[i] == s[1..][i - 1];
      k
    else 0
  }

  /** Number of elements satisfying `p` at the end of `s`. */
  function Trailing<T>(p: T -> bool, s: seq<T>): (k: nat)
    ensures k <= |s|
    ensures forall i :: |s| - k <= i < |s| ==> p(s[i])
    ensures k < |s| ==> !p(s[|s| - 1 - k])
  {
    if s != [] && p(s[|s| - 1]) then
      var k := 1 + Trailing(p, s[..|s| - 1]);
      assert forall i :: |s| - k <= i < |s| - 1 ==> s[i] == s[..|s| - 1][i];
      k
    else 0
  }

  /** `s` without the elements satisfying `p` at its start. */
  function DropLeading<T>(p: T -> bool, s: seq<T>): seq<T> {
    if s != [] && p(s[0]) then DropLeading(p, s[1..]) else s
  }

  /** `s` without the elements satisfying `p` at its end. */
  function DropTrailing<T>(p: T -> bool, s: seq<T>): seq<T> {
    if s != [] && p(s[|s| - 1]) then DropTrailing(p, s[..|s| - 1]) else s
  }

  /** `s` with the elements satisfying `p` cut from both ends. */
  function Strip<T>(p: T -> bool, s: seq<T>): seq<T> {
    DropTrailing(p, DropLeading(p, s))
  }

  lemma {:induction false} DropLeadingIsSuffix<T>(p: T -> bool, s: seq<T>)
    ensures DropLeading(p, s) == s[Leading(p, s)..]
  {
    if s != [] && p(s[0]) {
      DropLeadingIsSuffix(p, s[1..]);
      assert s[1..][Leading(p, s[1..])..] == s[Leading(p, s)..];
    }
  }

  lemma {:induction false} DropTrailingIsPrefix<T>(p: T -> bool, s: seq<T>)
    ensures DropTrailing(p, s) == s[..|s| - Trailing(p, s)]
  {
    if s != [] && p(s[|s| - 1]) {
      DropTrailingIsPrefix(p, s[..|s| - 1]);
      assert s[..|s| - 1][..|s| - 1 - Trailing(p, s[..|s| - 1])] == s[..|s| - Trailing(p, s)];
    }
  }

  /** Stripping keeps the slice between the two runs it cuts. */
  lemma StripSlice<T>(p: T -> bool, s: seq<T>)
    ensures Strip(p, s) == s[Leading(p, s)..][..|s[Leading(p, s)..]| - Trailing(p, s[Leading(p, s)..])]
  {
    DropLeadingIsSuffix(p, s);
    DropTrailingIsPrefix(p, s[Leading(p, s)..]);
  }

  /** What stripping leaves: the elements of `s` from its first one not
      satisfying `p` on, with all the elements cut satisfying `p`; the ends
      of what is left do not satisfy `p`, and nothing is left exactly when
      every element of `s` satisfies `p`. */
  lemma StripIsCore<T>(p: T -> bool, s: seq<T>)
    ensures var r := Strip(p, s);
      var a := Leading(p, s);
      && a + |r| <= |s|
      && (forall i :: 0 <= i < |r| ==> r[i] == s[a + i])
      && (forall i :: 0 <= i < a || a + |r| <= i < |s| ==> p(s[i]))
      && (r != [] ==> !p(r[0]) && !p(r[|r| - 1]))
      && (r == [] <==> All(p, s))
  {
    StripKeeps(p, s);
    StripCuts(p, s);
    StripEnds(p, s);
  }

  /** What is left is a run of consecutive elements of `s`. */
  lemma StripKeeps<T>(p: T -> bool, s: seq<T>)
    ensures var r := Strip(p, s);
      var a := Leading(p, s);
      && a + |r| <= |s|
      && (forall i :: 0 <= i < |r| ==> r[i] == s[a + i])
  {
    StripSlice(p, s);
    SuffixIndices(s, Leading(p, s));
  }

  /** Everything cut satisfies `p`. */
  lemma StripCuts<T>(p: T -> bool, s: seq<T>)
    ensures var r := Strip(p, s);
      var a := Leading(p, s);
      forall i :: 0 <= i < a || a + |r| <= i < |s| ==> p(s[i])
  {
    StripSlice(p, s);
    SuffixIndices(s, Leading(p, s));
  }

  /** Neither end of what is left satisfies `p`; nothing is left exactly
      when every element satisfies `p`. */
  lemma StripEnds<T>(p: T -> bool, s: seq<T>)
    ensures var r := Strip(p, s);
      && (r != [] ==> !p(r[0]) && !p(r[|r| - 1]))
      && (r == [] <==> All(p, s))
  {
    var a := Leading(p, s);
    var rest := s[a..];
    var t := Trailing(p, rest);
    var r := Strip(p, s);
    StripSlice(p, s);
    if r != [] {
      assert r[0] == rest[0] == s[a];
      assert r[|r| - 1] == rest[|rest| - 1 - t];
    } else {
      StripCuts(p, s);
    }
  }

  /** Where the elements of `s[a..]` sit in `s`. */
  lemma SuffixIndices<T>(s: seq<T>, a: nat)
    requires a <= |s|
    ensures forall j :: 0 <= j < |s| - a ==> s[a..][j] == s[a + j]
  {
  }

  /** Stripping twice is stripping once. */
  lemma StripIdempotent<T>(p: T -> bool, s: seq<T>)
    ensures Strip(p, Strip(p, s)) == Strip(p, s)
  {
    StripIsCore(p, s);
    var r := Strip(p, s);
    if r != [] {
      assert DropLeading(p, r) == r;
      assert DropTrailing(p, r) == r;
    }
  }
}
