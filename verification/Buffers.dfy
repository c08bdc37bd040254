/**
 The byte buffers of the row cursor (rows.go): copies for the caller, overwritten when outdated.
*/
module Buffers {
  import opened Wrappers
  import opened Rows

  /** The UTF-8 bytes of the text written over outdated buffers (rows.go:13). */
  const INVALIDATE: seq<Byte> := [
    0xE2, 0x98, 0xA0, 0xE2, 0x98, 0xA0, 0xE2, 0x98, 0xA0, 0x20,
    0x4D, 0x45, 0x4D, 0x4F, 0x52, 0x59, 0x20,
    0x4F, 0x56, 0x45, 0x52, 0x57, 0x52, 0x49, 0x54, 0x54, 0x45, 0x4E, 0x20,
    0xE2, 0x98, 0xA0, 0xE2, 0x98, 0xA0, 0xE2, 0x98, 0xA0, 0x20]

  /** What an outdated buffer of length `n` holds: the pattern over and over, cut to length. */
  ghost function Overwritten(n: nat): seq<Byte> {
    seq(n, k requires 0 <= k < n => INVALIDATE[k % |INVALIDATE|])
  }

  /** bytes.Repeat. */
  function Repeat(b: seq<Byte>, n: nat): seq<Byte> {
    if n == 0 then [] else b + Repeat(b, n - 1)
  }

  lemma ModShift(k: nat, m: nat)
    requires 0 < m <= k
    ensures (k - m) % m == k % m
  {
    var q, r := (k - m) / m, (k - m) % m;
    assert k == (q + 1) * m + r;
    ModUnique(k, m, q + 1, r);
  }

  lemma ModUnique(k: nat, m: nat, q: nat, r: nat)
    requires k == q * m + r && r < m
    ensures k % m == r
  {
    var d := k / m - q;
    assert d * m == r - k % m;
    assert d >= 1 ==> d * m >= m;
    assert d <= -1 ==> d * m + m <= 0;
  }

  lemma {:induction false} RepeatLength(b: seq<Byte>, n: nat)
    ensures |Repeat(b, n)| == |b| * n
  {
    if n > 0 {
      RepeatLength(b, n - 1);
      assert |b| * n == |b| + |b| * (n - 1);
    }
  }

  lemma {:induction false} RepeatCell(b: seq<Byte>, n: nat, k: nat)
    requires b != [] && k < |Repeat(b, n)|
    ensures Repeat(b, n)[k] == b[k % |b|]
  {
    if k >= |b| {
      RepeatCell(b, n - 1, k - |b|);
      ModShift(k, |b|);
    }
  }

  /** A repeated pattern is periodic and as long as the count says. */
  lemma RepeatAt(b: seq<Byte>, n: nat, k: nat)
    requires b != []
    ensures |Repeat(b, n)| == |b| * n
    ensures k < |Repeat(b, n)| ==> Repeat(b, n)[k] == b[k % |b|]
  {
    RepeatLength(b, n);
    if k < |Repeat(b, n)| {
      RepeatCell(b, n, k);
    }
  }

  /** Go's copy: as many elements as both sides have. */
  method Copy(dst: array<Byte>, src: seq<Byte>)
    modifies dst
    ensures dst.Length <= |src| ==> dst[..] == src[..dst.Length]
    ensures |src| < dst.Length ==> dst[..] == src + old(dst[|src|..])
  {
    var n := if dst.Length < |src| then dst.Length else |src|;
    for k := 0 to n
      invariant forall j | 0 <= j < k :: dst[j] == src[j]
      invariant forall j | k <= j < dst.Length :: dst[j] == old(dst[j])
    {
      dst[k] := src[k];
    }
  }

  /** Overwrites one buffer completely. */
  method Overwrite(buf: array<Byte>)
    modifies buf
    ensures buf[..] == Overwritten(buf.Length)
    ensures forall k | 0 <= k < buf.Length :: buf[k] == INVALIDATE[k % |INVALIDATE|]
  {
    var times := buf.Length / |INVALIDATE| + 1;
    forall k | 0 <= k < buf.Length
      ensures k < |Repeat(INVALIDATE, times)| && Repeat(INVALIDATE, times)[k] == INVALIDATE[k % |INVALIDATE|]
    {
      RepeatAt(INVALIDATE, times, k);
    }
    RepeatAt(INVALIDATE, times, 0);
    Copy(buf, Repeat(INVALIDATE, times));
  }

  /** A fresh copy of a non-empty byte cell; nothing for any other cell. */
  method RawBytes(col: Cell) returns (b: Option<array<Byte>>)
    ensures b.Some? <==> col.Bytes? && col.buf.Length > 0
    ensures b.Some? ==> fresh(b.value) && b.value[..] == col.buf[..]
  {
    if !IsRaw(col) {
      return None;
    }
    var copied := new Byte[col.buf.Length];
    Copy(copied, col.buf[..]);
    return Some(copied);
  }

  predicate IsRaw(col: Cell) {
    col.Bytes? && col.buf.Length > 0
  }

  /** What the caller's destination gets for a stored cell: a fresh buffer with the same bytes for a
      non-empty byte cell, any other cell as it is. */
  twostate predicate Delivered(stored: Cell, new got: Cell)
    reads if stored.Bytes? then {stored.buf} else {}, if got.Bytes? then {got.buf} else {}
  {
    if IsRaw(stored) then got.Bytes? && fresh(got.buf) && got.buf[..] == stored.buf[..] else got == stored
  }
}
