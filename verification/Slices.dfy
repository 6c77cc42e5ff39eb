/** Text or bytes standing at a position of a longer sequence. */
module Slices {

  /** t stands at position pos of s. */
  predicate At<T(==)>(s: seq<T>, pos: nat, t: seq<T>) {
    pos + |t| <= |s| && s[pos..pos + |t|] == t
  }

  lemma AtSplit<T>(s: seq<T>, pos: nat, a: seq<T>, b: seq<T>)
    requires At(s, pos, a + b)
    ensures At(s, pos, a) && At(s, pos + |a|, b)
  {
    assert s[pos..pos + |a|] == (a + b)[..|a|];
    assert s[pos + |a|..pos + |a| + |b|] == (a + b)[|a|..];
  }

  lemma AtChar<T>(s: seq<T>, pos: nat, t: seq<T>, i: nat)
    requires At(s, pos, t) && i < |t|
    ensures pos + i < |s| && s[pos + i] == t[i]
  {
    assert s[pos..pos + |t|][i] == t[i];
  }
}
