/** Order-preserving subsequences, for what survives a drop-oldest queue. */
module Subsequence {

  /** s can be obtained from t by deleting elements, keeping the order of the rest. */
  ghost predicate IsSubseq<T>(s: seq<T>, t: seq<T>)
    decreases |t|
  {
    if t == [] then s == []
    else
      IsSubseq(s, t[..|t| - 1]) ||
      (s != [] && s[|s| - 1] == t[|t| - 1] && IsSubseq(s[..|s| - 1], t[..|t| - 1]))
  }

  /** Appending the same element to both sides keeps a subsequence. */
  lemma AppendBoth<T>(s: seq<T>, t: seq<T>, x: T)
    requires IsSubseq(s, t)
    ensures IsSubseq(s + [x], t + [x])
  {
    assert (s + [x])[..|s|] == s;
    assert (t + [x])[..|t|] == t;
  }

  /** Deleting one more element keeps a subsequence. */
  lemma {:induction false} DropOne<T>(s: seq<T>, t: seq<T>, i: nat)
    requires IsSubseq(s, t) && i < |s|
    ensures IsSubseq(s[..i] + s[i + 1..], t)
    decreases |t|
  {
    var d := s[..i] + s[i + 1..];
    var t' := t[..|t| - 1];
    if IsSubseq(s, t') {
      DropOne(s, t', i);
    } else {
      var s' := s[..|s| - 1];
      if i == |s| - 1 {
        assert d == s';
      } else {
        DropOne(s', t', i);
        assert d[..|d| - 1] == s'[..i] + s'[i + 1..];
      }
    }
  }

  /** A prefix of a subsequence is a subsequence. */
  lemma {:induction false} PrefixOf<T>(s: seq<T>, q: seq<T>, t: seq<T>)
    requires IsSubseq(s + q, t)
    ensures IsSubseq(s, t)
    decreases |q|
  {
    if q == [] {
      assert s + q == s;
    } else {
      var sq := s + q;
      DropOne(sq, t, |sq| - 1);
      assert sq[..|sq| - 1] + sq[|sq|..] == s + q[..|q| - 1];
      PrefixOf(s, q[..|q| - 1], t);
    }
  }

  /** A subsequence is never longer than the sequence it comes from. */
  lemma {:induction false} NoLonger<T>(s: seq<T>, t: seq<T>)
    requires IsSubseq(s, t)
    ensures |s| <= |t|
    decreases |t|
  {
    if t != [] {
      if IsSubseq(s, t[..|t| - 1]) {
        NoLonger(s, t[..|t| - 1]);
      } else {
        NoLonger(s[..|s| - 1], t[..|t| - 1]);
      }
    }
  }
}
