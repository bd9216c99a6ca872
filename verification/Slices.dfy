/** Bytes, one sequence found inside another, and a sequence read backwards. */
module Slices {
  type Byte = x: nat | x < 256

  ghost predicate At<T>(s: seq<T>, i: nat, t: seq<T>) {
    i + |t| <= |s| && s[i..i + |t|] == t
  }

  lemma AtSplit<T>(s: seq<T>, i: nat, t: seq<T>, u: seq<T>)
    requires At(s, i, t + u)
    ensures At(s, i, t) && At(s, i + |t|, u)
  {
    assert s[i..i + |t|] == (t + u)[..|t|];
    assert s[i + |t|..i + |t| + |u|] == (t + u)[|t|..];
  }

  function Reversed<T>(s: seq<T>): (r: seq<T>)
    ensures |r| == |s| && forall i | 0 <= i < |s| :: r[i] == s[|s| - 1 - i]
  {
    seq(|s|, i requires 0 <= i < |s| => s[|s| - 1 - i])
  }
}
