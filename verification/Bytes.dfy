/** Words in memory, lowest byte first. */
module Bytes {

  type byte = x: int | 0 <= x < 256

  function Word(v: nat, width: nat): (w: seq<byte>)
    ensures |w| == width
  {
    if width == 0 then [] else [v % 256] + Word(v / 256, width - 1)
  }

  function Unword(w: seq<byte>): nat {
    if w == [] then 0 else w[0] + 256 * Unword(w[1..])
  }

  function Pow256(k: nat): nat {
    if k == 0 then 1 else 256 * Pow256(k - 1)
  }

  lemma {:induction false} WordRoundTrip(v: nat, width: nat)
    requires v < Pow256(width)
    ensures Unword(Word(v, width)) == v
  {
    if width > 0 {
      WordRoundTrip(v / 256, width - 1);
      assert Word(v, width)[1..] == Word(v / 256, width - 1);
    }
  }

  lemma {:induction false} UnwordZero(w: seq<byte>)
    ensures Unword(w) == 0 <==> forall k :: 0 <= k < |w| ==> w[k] == 0
  {
    if w != [] {
      UnwordZero(w[1..]);
      assert forall k :: 1 <= k < |w| ==> w[k] == w[1..][k - 1];
      assert forall k :: 0 <= k < |w| - 1 ==> w[1..][k] == w[k + 1];
    }
  }

  lemma {:induction false} UnwordBound(w: seq<byte>)
    ensures Unword(w) < Pow256(|w|)
  {
    if w != [] { UnwordBound(w[1..]); }
  }
}
