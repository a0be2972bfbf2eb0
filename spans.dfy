/** Facts about a text held in the input at a position. */
module Spans {
  import opened Json
  import opened Grammar

  /** Holding `a + b` is holding `a`, then `b` right after it. */
  lemma HoldsConcat(s: Text, i: nat, a: Text, b: Text)
    requires Holds(s, i, a + b)
    ensures Holds(s, i, a) && Holds(s, i + |a|, b)
  {
    forall k | 0 <= k < |a|
      ensures s[i + k] == a[k]
    {
      assert (a + b)[k] == a[k];
    }
    forall k | 0 <= k < |b|
      ensures s[i + |a| + k] == b[k]
    {
      assert (a + b)[|a| + k] == b[k];
    }
  }

  /** Reading one unit of a held text. */
  lemma HoldsIndex(s: Text, i: nat, t: Text, k: nat)
    requires Holds(s, i, t) && k < |t|
    ensures s[i + k] == t[k]
  {
  }

  lemma HoldsJoin(s: Text, i: nat, a: Text, b: Text)
    requires Holds(s, i, a) && Holds(s, i + |a|, b)
    ensures Holds(s, i, a + b)
  {
    forall k | 0 <= k < |a| + |b|
      ensures s[i + k] == (a + b)[k]
    {
      if k >= |a| {
        assert s[i + |a| + (k - |a|)] == b[k - |a|];
      }
    }
  }

  /** Holding `t` is holding the slice of the input that spells it. */
  lemma HoldsSlice(s: Text, i: nat, t: Text)
    requires Holds(s, i, t)
    ensures s[i..i + |t|] == t
  {
  }

  /** The input holds its own slices. */
  lemma SliceHolds(s: Text, i: nat, j: nat)
    requires i <= j <= |s|
    ensures Holds(s, i, s[i..j])
  {
  }
}
