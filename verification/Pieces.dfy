/** Concatenating pieces of equal length, and replacing part of the result. */
module Pieces {
  import opened Bytes

  function Flatten(ss: seq<seq<byte>>): seq<byte> {
    if ss == [] then [] else ss[0] + Flatten(ss[1..])
  }

  ghost predicate Uniform(ss: seq<seq<byte>>, n: nat) {
    forall i :: 0 <= i < |ss| ==> |ss[i]| == n
  }

  lemma {:induction false} FlattenConcat(ss: seq<seq<byte>>, tt: seq<seq<byte>>)
    ensures Flatten(ss + tt) == Flatten(ss) + Flatten(tt)
  {
    if ss == [] {
      assert ss + tt == tt;
    } else {
      assert (ss + tt)[1..] == ss[1..] + tt;
      FlattenConcat(ss[1..], tt);
    }
  }

  lemma {:induction false} FlattenLength(ss: seq<seq<byte>>, n: nat)
    requires Uniform(ss, n)
    ensures |Flatten(ss)| == |ss| * n
  {
    if ss != [] {
      FlattenLength(ss[1..], n);
      assert |ss| * n == n + (|ss| - 1) * n;
    }
  }

  /** The result before, at and after piece `m`. */
  lemma FlattenAround(ss: seq<seq<byte>>, n: nat, m: nat)
    requires Uniform(ss, n) && m < |ss|
    ensures Flatten(ss) == Flatten(ss[..m]) + ss[m] + Flatten(ss[m + 1..])
    ensures |Flatten(ss[..m])| == m * n && |Flatten(ss)| == |ss| * n && m * n + n <= |ss| * n
  {
    assert ss == ss[..m] + ([ss[m]] + ss[m + 1..]);
    FlattenConcat(ss[..m], [ss[m]] + ss[m + 1..]);
    assert ([ss[m]] + ss[m + 1..])[1..] == ss[m + 1..];
    FlattenLength(ss[..m], n);
    FlattenLength(ss, n);
  }

  lemma FlattenSlice(ss: seq<seq<byte>>, n: nat, m: nat, a: nat, b: nat)
    requires Uniform(ss, n) && m < |ss| && a <= b <= n
    ensures m * n + b <= |Flatten(ss)| && Flatten(ss)[m * n + a..m * n + b] == ss[m][a..b]
  {
    hide Flatten;
    FlattenAround(ss, n, m);
    var p, q, r := Flatten(ss[..m]), ss[m], Flatten(ss[m + 1..]);
    assert (p + q + r)[|p| + a..|p| + b] == q[a..b];
  }

  /** `s` with the bytes from `p` on replaced by `t`. */
  function Splice(s: seq<byte>, p: nat, t: seq<byte>): (r: seq<byte>)
    requires p + |t| <= |s|
    ensures |r| == |s|
  {
    s[..p] + t + s[p + |t|..]
  }

  /** Replacing part of one piece replaces that part of the whole. */
  lemma FlattenSplice(ss: seq<seq<byte>>, n: nat, m: nat, a: nat, t: seq<byte>)
    requires Uniform(ss, n) && m < |ss| && a + |t| <= n
    ensures m * n + a + |t| <= |Flatten(ss)|
    ensures Flatten(ss[m := Splice(ss[m], a, t)]) == Splice(Flatten(ss), m * n + a, t)
  {
    hide Flatten;
    FlattenAround(ss, n, m);
    var ss' := ss[m := Splice(ss[m], a, t)];
    FlattenAround(ss', n, m);
    assert ss'[..m] == ss[..m] && ss'[m + 1..] == ss[m + 1..];
    SpliceMiddle(Flatten(ss[..m]), ss[m], Flatten(ss[m + 1..]), a, t);
  }

  lemma SpliceMiddle(p: seq<byte>, q: seq<byte>, r: seq<byte>, a: nat, t: seq<byte>)
    requires a + |t| <= |q|
    ensures p + Splice(q, a, t) + r == Splice(p + q + r, |p| + a, t)
  {
  }

  lemma SpliceTwice(s: seq<byte>, p: nat, t: seq<byte>, u: seq<byte>)
    requires p + |t| + |u| <= |s|
    ensures Splice(Splice(s, p, t), p + |t|, u) == Splice(s, p, t + u)
  {
  }
}
