/** Bytes, fixed-width integers and the two byte orders the drivers use: host
    order (little-endian) in Arrow buffers, network order on the wire. */
module Bytes {
  type byte = b: int | 0 <= b < 256

  const TWO_31: int := 0x8000_0000
  const TWO_32: int := 0x1_0000_0000
  const TWO_63: int := 0x8000_0000_0000_0000
  const TWO_64: int := 0x1_0000_0000_0000_0000

  type Int16 = i: int | -0x8000 <= i < 0x8000
  type Int32 = i: int | -TWO_31 <= i < TWO_31
  type Int64 = i: int | -TWO_63 <= i < TWO_63
  type UInt32 = u: int | 0 <= u < TWO_32
  type UInt64 = u: int | 0 <= u < TWO_64

  function Pow256(n: nat): (p: nat)
    ensures p >= 1
  {
    if n == 0 then 1 else 256 * Pow256(n - 1)
  }

  /** Byte i of a number, counted from the least significant. */
  function ByteOf(v: nat, i: nat): byte {
    if i == 0 then v % 256 else ByteOf(v / 256, i - 1)
  }

  lemma ProductSize(d: int, e: int)
    requires d > 0
    ensures e >= 1 ==> d * e >= d
    ensures e <= -1 ==> d * e <= -d
  {
  }

  lemma QuotientIs(a: nat, d: int, q: int, r: nat)
    requires d > 0 && a == d * q + r && r < d
    ensures a / d == q
  {
    var p, t := a / d, a % d;
    assert a == d * p + t;
    assert d * (p - q) == d * p - d * q == r - t;
    ProductSize(d, p - q);
  }

  lemma DivideFurther(v: nat, c: nat)
    requires c > 0
    ensures v / 256 / c == v / (256 * c)
  {
    var q := v / 256;
    var p, t := q / c, q % c;
    assert q == c * p + t;
    assert (256 * c) * p == 256 * (c * p);
    QuotientIs(v, 256 * c, p, 256 * t + v % 256);
  }

  /** Byte i counts multiples of 256^i. */
  lemma {:induction false} ByteOfIs(v: nat, i: nat)
    ensures ByteOf(v, i) == v / Pow256(i) % 256
  {
    if i > 0 {
      ByteOfIs(v / 256, i - 1);
      DivideFurther(v, Pow256(i - 1));
    }
  }

  // Little-endian

  function LE(n: nat, v: nat): (s: seq<byte>)
    ensures |s| == n
  {
    seq(n, i requires 0 <= i < n => ByteOf(v, i))
  }

  function FromLE(s: seq<byte>): (v: nat)
    ensures v < Pow256(|s|)
  {
    if s == [] then 0 else s[0] + 256 * FromLE(s[1..])
  }

  lemma {:induction false} LERoundTrip(n: nat, v: nat)
    requires v < Pow256(n)
    ensures FromLE(LE(n, v)) == v
  {
    if n > 0 {
      assert LE(n, v)[1..] == LE(n - 1, v / 256);
      LERoundTrip(n - 1, v / 256);
    }
  }

  lemma {:induction false} LEWeights(n: nat, v: nat, k: nat)
    requires k < n
    ensures LE(n, v)[k] == v / Pow256(k) % 256
  {
    ByteOfIs(v, k);
  }

  // Big-endian

  function BE(n: nat, v: nat): (s: seq<byte>)
    ensures |s| == n
  {
    seq(n, i requires 0 <= i < n => ByteOf(v, n - 1 - i))
  }

  function FromBE(s: seq<byte>): (v: nat)
    ensures v < Pow256(|s|)
  {
    if s == [] then 0 else 256 * FromBE(s[..|s| - 1]) + s[|s| - 1]
  }

  lemma {:induction false} BERoundTrip(n: nat, v: nat)
    requires v < Pow256(n)
    ensures FromBE(BE(n, v)) == v
  {
    if n > 0 {
      var s, t := BE(n, v), BE(n - 1, v / 256);
      forall i | 0 <= i < n - 1 ensures s[i] == t[i] {
        assert s[i] == ByteOf(v, n - 1 - i) && t[i] == ByteOf(v / 256, n - 2 - i);
      }
      assert s[..n - 1] == t && s[n - 1] == ByteOf(v, 0);
      BERoundTrip(n - 1, v / 256);
    }
  }

  /** And the other way round. */
  lemma {:induction false} BEInverse(s: seq<byte>)
    ensures BE(|s|, FromBE(s)) == s
  {
    if s != [] {
      var n := |s| - 1;
      var v, init := FromBE(s), FromBE(s[..n]);
      BEInverse(s[..n]);
      assert v / 256 == init && v % 256 == s[n];
      forall i | 0 <= i < n ensures BE(|s|, v)[i] == s[i] {
        assert ByteOf(v, n - i) == ByteOf(init, n - 1 - i) == BE(n, init)[i] == s[..n][i];
      }
      assert BE(|s|, v)[n] == ByteOf(v, 0) == s[n];
    }
  }

  lemma {:induction false} BEWeights(n: nat, v: nat, k: nat)
    requires k < n
    ensures BE(n, v)[k] == v / Pow256(n - 1 - k) % 256
  {
    ByteOfIs(v, n - 1 - k);
  }

  lemma {:induction false} Widths()
    ensures Pow256(1) == 256 && Pow256(2) == 0x1_0000 && Pow256(4) == TWO_32 && Pow256(8) == TWO_64
  {
    assert Pow256(2) == 256 * Pow256(1);
    assert Pow256(3) == 256 * Pow256(2);
    assert Pow256(4) == 256 * Pow256(3);
    assert Pow256(5) == 256 * Pow256(4);
    assert Pow256(6) == 256 * Pow256(5);
    assert Pow256(7) == 256 * Pow256(6);
  }

  // Two's complement

  function Unsigned(modulus: int, v: int): (u: nat)
    requires modulus > 0
    ensures u < modulus
  {
    v % modulus
  }

  function Signed(modulus: int, u: int): int {
    if 2 * u >= modulus then u - modulus else u
  }

  lemma SignedUnsigned(modulus: int, v: int)
    requires modulus > 0 && -modulus <= 2 * v < modulus
    ensures Signed(modulus, Unsigned(modulus, v)) == v
  {
    if v < 0 { assert v % modulus == v + modulus; }
  }

  // Fixed-width elements of an Arrow buffer

  /** Elements of width `n` in a buffer: element k occupies bytes n*k..n*k+n. */
  function Elements(n: nat, s: seq<byte>): (e: seq<nat>)
    requires n > 0
    ensures |e| == |s| / n
  {
    seq(|s| / n, k requires 0 <= k < |s| / n => Element(n, s, k))
  }

  function Element(n: nat, s: seq<byte>, k: nat): nat
    requires n > 0 && k < |s| / n
  {
    ElementInRange(n, |s|, k);
    FromLE(s[n * k..n * k + n])
  }

  lemma ElementInRange(n: nat, size: nat, k: nat)
    requires n > 0 && k < size / n
    ensures 0 <= n * k && n * k + n <= size
  {
    assert n * k + n == n * (k + 1) <= n * (size / n) <= size;
  }

  lemma {:induction false} ElementKept(n: nat, s: seq<byte>, x: seq<byte>, k: nat)
    requires n > 0 && k < |s| / n && k < |s + x| / n
    ensures Element(n, s + x, k) == Element(n, s, k)
  {
    ElementInRange(n, |s|, k);
    assert (s + x)[n * k..n * k + n] == s[n * k..n * k + n];
  }

  lemma {:induction false} LastElement(n: nat, m: nat, s: seq<byte>, v: nat)
    requires n > 0 && |s| == n * m && m < (n * m + n) / n && v < Pow256(n)
    ensures Element(n, s + LE(n, v), m) == v
  {
    assert (s + LE(n, v))[n * m..n * m + n] == LE(n, v);
    LERoundTrip(n, v);
  }

  lemma {:induction false} AppendElement(n: nat, s: seq<byte>, v: nat)
    requires (n == 2 || n == 4 || n == 8) && |s| % n == 0 && v < Pow256(n)
    ensures (|s| + n) % n == 0
    ensures Elements(n, s + LE(n, v)) == Elements(n, s) + [v]
  {
    var x, m := LE(n, v), |s| / n;
    assert |s| == n * m && (|s| + n) % n == 0 && (|s| + n) / n == m + 1 by { WholeElements(n, |s|); }
    forall k | 0 <= k < m ensures Elements(n, s + x)[k] == Elements(n, s)[k] { ElementKept(n, s, x, k); }
    LastElement(n, m, s, v);
  }

  lemma WholeElements(n: nat, size: nat)
    requires (n == 2 || n == 4 || n == 8) && size % n == 0
    ensures size == n * (size / n) && (size + n) % n == 0 && (size + n) / n == size / n + 1
  {
    if n == 2 { assert (size + 2) / 2 == size / 2 + 1; }
    else if n == 4 { assert (size + 4) / 4 == size / 4 + 1; }
    else { assert (size + 8) / 8 == size / 8 + 1; }
  }

  lemma MultipleDivides(n: nat, m: nat)
    requires n == 2 || n == 4 || n == 8
    ensures (n * m) / n == m && (n * m) % n == 0
  {
    if n == 2 { assert (2 * m) / 2 == m; } else if n == 4 { assert (4 * m) / 4 == m; } else { assert (8 * m) / 8 == m; }
  }
}
