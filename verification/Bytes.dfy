/** Little-endian integers as byte sequences. */
module Bytes {
  type Byte = b: int | 0 <= b < 256

  function Pow256(k: nat): (r: nat)
    ensures r > 0
  {
    if k == 0 then 1 else 256 * Pow256(k - 1)
  }

  /** The low `k` bytes of `n`, least significant first. */
  function ToLe(n: nat, k: nat): (r: seq<Byte>)
    ensures |r| == k
  {
    if k == 0 then [] else [n % 256] + ToLe(n / 256, k - 1)
  }

  function FromLe(bs: seq<Byte>): nat {
    if bs == [] then 0 else bs[0] + 256 * FromLe(bs[1..])
  }

  /** Decoding and encoding again gives the same bytes. */
  lemma {:induction false} ToFromLe(bs: seq<Byte>)
    ensures ToLe(FromLe(bs), |bs|) == bs
    ensures FromLe(bs) < Pow256(|bs|)
  {
    if bs != [] {
      ToFromLe(bs[1..]);
      var v := FromLe(bs[1..]);
      assert (bs[0] + 256 * v) / 256 == v && (bs[0] + 256 * v) % 256 == bs[0];
      assert bs == [bs[0]] + bs[1..];
    }
  }

  lemma Width4()
    ensures Pow256(4) == 0x1_0000_0000
  {
    assert Pow256(1) == 256 && Pow256(2) == 65536 && Pow256(3) == 16777216;
  }

  /** A value survives exactly when it fits its width. */
  lemma LeRoundTripIff(n: nat, k: nat)
    ensures FromLe(ToLe(n, k)) == n <==> n < Pow256(k)
  {
    ToFromLe(ToLe(n, k));
    if n < Pow256(k) { LeRoundTrip(n, k); }
  }

  lemma {:induction false} LeRoundTrip(n: nat, k: nat)
    requires n < Pow256(k)
    ensures FromLe(ToLe(n, k)) == n
  {
    if k > 0 {
      LeRoundTrip(n / 256, k - 1);
      assert ToLe(n, k)[1..] == ToLe(n / 256, k - 1);
    }
  }
}
