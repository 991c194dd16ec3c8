/** Bit-packed booleans: bit k of a bitmap is bit k % 8 of byte k / 8, least
    significant first. */
module Bits {
  import opened Bytes

  predicate Bit(b: nat, j: nat) {
    if j == 0 then b % 2 == 1 else Bit(b / 2, j - 1)
  }

  function SetBit(b: nat, j: nat, v: bool): nat {
    if j == 0 then 2 * (b / 2) + (if v then 1 else 0) else 2 * SetBit(b / 2, j - 1, v) + b % 2
  }

  lemma {:induction false} SetBitReads(b: nat, j: nat, v: bool, i: nat)
    ensures Bit(SetBit(b, j, v), i) == if i == j then v else Bit(b, i)
  {
    if i > 0 && j > 0 { SetBitReads(b / 2, j - 1, v, i - 1); }
  }

  function Pow2(n: nat): nat {
    if n == 0 then 1 else 2 * Pow2(n - 1)
  }

  lemma HalveFurther(b: nat, c: nat)
    requires c > 0
    ensures b / 2 / c == b / (2 * c)
  {
    var q := b / 2;
    var p, t := q / c, q % c;
    assert q == c * p + t;
    assert (2 * c) * p == 2 * (c * p);
    QuotientIs(b, 2 * c, p, 2 * t + b % 2);
  }

  /** Bit j counts multiples of 2^j. */
  lemma {:induction false} BitIs(b: nat, j: nat)
    ensures Pow2(j) > 0 && (Bit(b, j) <==> b / Pow2(j) % 2 == 1)
  {
    if j > 0 {
      BitIs(b / 2, j - 1);
      HalveFurther(b, Pow2(j - 1));
    }
  }

  lemma {:induction false} SetBitFits(b: nat, j: nat, v: bool, n: nat)
    requires j < n && b < Pow2(n)
    ensures SetBit(b, j, v) < Pow2(n)
  {
    assert Pow2(n) == 2 * Pow2(n - 1) && b / 2 < Pow2(n - 1);
    if j > 0 { SetBitFits(b / 2, j - 1, v, n - 1); }
  }

  function BytesForBits(n: nat): nat { (n + 7) / 8 }

  predicate BitAt(bitmap: seq<byte>, k: nat)
    requires k / 8 < |bitmap|
  {
    Bit(bitmap[k / 8], k % 8)
  }

  /** Set bit k, growing the bitmap by a zero byte first when k starts a new one. */
  function PutBit(bitmap: seq<byte>, k: nat, v: bool): (r: seq<byte>)
    requires |bitmap| == BytesForBits(k)
    ensures |r| == BytesForBits(k + 1)
  {
    var grown := if BytesForBits(k + 1) > |bitmap| then bitmap + [0] else bitmap;
    assert |grown| == BytesForBits(k + 1) && k / 8 < |grown|;
    var b: nat := grown[k / 8];
    assert Pow2(8) == 256 by { assert Pow2(4) == 16; }
    SetBitFits(b, k % 8, v, 8);
    grown[k / 8 := SetBit(b, k % 8, v)]
  }

  lemma {:induction false} PutBitReads(bitmap: seq<byte>, k: nat, v: bool, i: nat)
    requires |bitmap| == BytesForBits(k) && i <= k
    ensures BitAt(PutBit(bitmap, k, v), i) == if i == k then v else i / 8 < |bitmap| && BitAt(bitmap, i)
  {
    if i < k { assert i / 8 < |bitmap|; }
    var b: nat := if k / 8 < |bitmap| then bitmap[k / 8] else 0;
    if i / 8 == k / 8 { SetBitReads(b, k % 8, v, i % 8); }
  }
}
