/** Bytes, and numbers stored in them least significant byte first. */
module Bytes {

  newtype byte = b: int | 0 <= b < 256

  function Encode(n: nat, w: nat): (s: seq<byte>)
    ensures |s| == n
  {
    if n == 0 then [] else [(w % 256) as byte] + Encode(n - 1, w / 256)
  }

  function Decode(s: seq<byte>): nat {
    if s == [] then 0 else s[0] as nat + 256 * Decode(s[1..])
  }

  function Pow256(n: nat): nat {
    if n == 0 then 1 else 256 * Pow256(n - 1)
  }

  lemma {:induction false} DecodeEncode(n: nat, w: nat)
    requires w < Pow256(n)
    ensures Decode(Encode(n, w)) == w
  {
    if n > 0 {
      DecodeEncode(n - 1, w / 256);
      assert Encode(n, w)[1..] == Encode(n - 1, w / 256);
    }
  }

  lemma {:induction false} DecodeZero(s: seq<byte>)
    requires forall k :: 0 <= k < |s| ==> s[k] == 0
    ensures Decode(s) == 0
  {
    if s != [] {
      DecodeZero(s[1..]);
    }
  }
}
