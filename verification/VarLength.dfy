/** Arrow's variable-length layout: pieces laid end to end in one buffer, and the
    int32 offsets at which they start and end in another. */
module VarLength {
  import opened Bytes

  function Concat(pieces: seq<seq<byte>>): seq<byte> {
    if pieces == [] then [] else Concat(pieces[..|pieces| - 1]) + pieces[|pieces| - 1]
  }

  /** The int32 the builder stores for a length: the length modulo 2^32. */
  function Wrapped(length: nat): UInt32 { length % TWO_32 }

  function Offsets(pieces: seq<seq<byte>>): (o: seq<nat>)
    ensures |o| == |pieces| + 1
  {
    if pieces == [] then [0] else Offsets(pieces[..|pieces| - 1]) + [Wrapped(|Concat(pieces)|)]
  }

  lemma {:induction false} PieceAppended(pieces: seq<seq<byte>>, p: seq<byte>)
    ensures Concat(pieces + [p]) == Concat(pieces) + p
    ensures Offsets(pieces + [p]) == Offsets(pieces) + [Wrapped(|Concat(pieces)| + |p|)]
    ensures Offsets(pieces)[|pieces|] == Wrapped(|Concat(pieces)|)
  {
    assert (pieces + [p])[..|pieces|] == pieces;
  }

  lemma {:induction false} OffsetAt(pieces: seq<seq<byte>>, k: nat)
    requires k <= |pieces|
    ensures Offsets(pieces)[k] == Wrapped(|Concat(pieces[..k])|)
    decreases |pieces|
  {
    var n := |pieces|;
    if k < n {
      OffsetAt(pieces[..n - 1], k);
      assert pieces[..n - 1][..k] == pieces[..k];
    } else {
      assert pieces[..n] == pieces;
    }
  }

  lemma {:induction false} ConcatSlice(pieces: seq<seq<byte>>, k: nat)
    requires k < |pieces|
    ensures |Concat(pieces[..k])| + |pieces[k]| == |Concat(pieces[..k + 1])| <= |Concat(pieces)|
    ensures Concat(pieces)[|Concat(pieces[..k])|..|Concat(pieces[..k + 1])|] == pieces[k]
    decreases |pieces|
  {
    var n := |pieces|;
    assert pieces[..k + 1][..k] == pieces[..k];
    if k < n - 1 {
      ConcatSlice(pieces[..n - 1], k);
      assert pieces[..n - 1][..k] == pieces[..k] && pieces[..n - 1][..k + 1] == pieces[..k + 1];
    } else {
      assert pieces[..n] == pieces;
    }
  }

  /** Offsets and character data of a string column, given the pieces. */
  ghost predicate HoldsPieces(data: seq<byte>, binary: seq<byte>, pieces: seq<seq<byte>>) {
    && |data| == 4 * (|pieces| + 1)
    && Elements(4, data) == Offsets(pieces)
    && binary == Concat(pieces)
  }

  /** Wrapping at every step is wrapping once. */
  lemma WrapAdd(a: nat, n: nat)
    ensures (Wrapped(a) + n) % TWO_32 == Wrapped(a + n)
  {
  }

  lemma {:induction false} PieceHeld(data: seq<byte>, binary: seq<byte>, pieces: seq<seq<byte>>, p: seq<byte>)
    requires HoldsPieces(data, binary, pieces)
    ensures HoldsPieces(data + LE(4, Wrapped(|binary| + |p|)), binary + p, pieces + [p])
    ensures Elements(4, data)[|pieces|] == Wrapped(|binary|)
  {
    var end := Wrapped(|binary| + |p|);
    PieceAppended(pieces, p);
    assert Elements(4, data + LE(4, end)) == Elements(4, data) + [end] by {
      Widths();
      AppendElement(4, data, end);
    }
  }

  function TotalSize(pieces: seq<seq<byte>>): nat {
    if pieces == [] then 0 else TotalSize(pieces[..|pieces| - 1]) + |pieces[|pieces| - 1]|
  }

  lemma {:induction false} ConcatSize(pieces: seq<seq<byte>>)
    ensures |Concat(pieces)| == TotalSize(pieces)
  {
    if pieces != [] { ConcatSize(pieces[..|pieces| - 1]); }
  }

  lemma {:induction false} PrefixShorter(pieces: seq<seq<byte>>, k: nat)
    requires k <= |pieces|
    ensures |Concat(pieces[..k])| <= |Concat(pieces)|
  {
    if k == |pieces| { assert pieces[..k] == pieces; } else { ConcatSlice(pieces, k); }
  }

  // ---------------------------------------------------------------------
  // Reading the pieces back
  // ---------------------------------------------------------------------

  function OffsetValue(data: seq<byte>, k: nat): int
    requires k < |data| / 4
  {
    Signed(TWO_32, Elements(4, data)[k])
  }

  predicate OffsetStep(data: seq<byte>, binary: seq<byte>, k: nat)
    requires k + 1 < |data| / 4
  {
    0 <= OffsetValue(data, k) <= OffsetValue(data, k + 1) <= |binary|
  }

  /** What Arrow demands of n variable-length entries: n + 1 offsets, rising from 0 to
      the size of the character data. */
  predicate ProperOffsets(data: seq<byte>, binary: seq<byte>, n: nat) {
    && |data| == 4 * (n + 1)
    && OffsetValue(data, 0) == 0
    && OffsetValue(data, n) == |binary|
    && forall k | 0 <= k < n :: OffsetStep(data, binary, k)
  }

  /** The bytes of entry k. */
  function Slice(data: seq<byte>, binary: seq<byte>, n: nat, k: nat): seq<byte>
    requires ProperOffsets(data, binary, n) && k < n
  {
    assert OffsetStep(data, binary, k);
    binary[OffsetValue(data, k)..OffsetValue(data, k + 1)]
  }

  /** Offsets are proper exactly when the pieces come to less than 2^31 bytes, and then
      they read back. */
  lemma {:induction false} ProperExactly(data: seq<byte>, binary: seq<byte>, pieces: seq<seq<byte>>)
    requires HoldsPieces(data, binary, pieces)
    ensures ProperOffsets(data, binary, |pieces|) <==> TotalSize(pieces) < TWO_31
    ensures TotalSize(pieces) < TWO_31 ==>
              forall k | 0 <= k < |pieces| :: Slice(data, binary, |pieces|, k) == pieces[k]
  {
    var n := |pieces|;
    ConcatSize(pieces);
    OffsetAt(pieces, n);
    assert pieces[..n] == pieces;
    if |binary| < TWO_31 {
      forall k | 0 <= k <= n ensures OffsetValue(data, k) == |Concat(pieces[..k])| <= |binary| {
        PrefixShorter(pieces, k);
        OffsetAt(pieces, k);
      }
      forall k | 0 <= k < n
        ensures OffsetStep(data, binary, k)
        ensures binary[OffsetValue(data, k)..OffsetValue(data, k + 1)] == pieces[k]
      {
        ConcatSlice(pieces, k);
      }
    } else {
      assert OffsetValue(data, n) < TWO_31;
    }
  }
}
