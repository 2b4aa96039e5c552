/** Bytes, option and result types, Python slices and the little-endian integer codec. */
module Bytes {

  type byte = x: int | 0 <= x < 0x100
  type bytes = seq<byte>
  type u16 = x: int | 0 <= x < 0x1_0000

  datatype Option<+T> = None | Some(value: T)

  datatype Result<+T, +E> = Ok(value: T) | Err(error: E)

  function Min(a: int, b: int): int {
    if a < b then a else b
  }

  function Max(a: int, b: int): int {
    if a < b then b else a
  }

  /** The Python slice s[lo:hi] for bounds that are not negative: out-of-range bounds are clipped. */
  function Slice<T>(s: seq<T>, lo: nat, hi: nat): (r: seq<T>)
    ensures hi <= |s| && lo <= hi ==> r == s[lo..hi]
    ensures |r| <= Max(0, hi - lo)
  {
    var top := Min(hi, |s|);
    if lo < top then s[lo..top] else []
  }

  /** The Python slice s[lo:]. */
  function From<T>(s: seq<T>, lo: nat): seq<T> {
    if lo <= |s| then s[lo..] else []
  }

  /** int.from_bytes(b, "little"). */
  function FromLE(b: bytes): nat {
    if b == [] then 0 else b[0] + 0x100 * FromLE(b[1..])
  }

  /** v.to_bytes(n, "little") for a value that fits. */
  function ToLE(v: nat, n: nat): (b: bytes)
    ensures |b| == n
  {
    if n == 0 then [] else [v % 0x100] + ToLE(v / 0x100, n - 1)
  }

  function Pow256(n: nat): (p: nat)
    ensures p > 0
  {
    if n == 0 then 1 else 0x100 * Pow256(n - 1)
  }

  lemma {:induction false} FromLEBound(b: bytes)
    ensures FromLE(b) < Pow256(|b|)
  {
    if b != [] {
      FromLEBound(b[1..]);
    }
  }

  lemma {:induction false} FromLEOfToLE(v: nat, n: nat)
    requires v < Pow256(n)
    ensures FromLE(ToLE(v, n)) == v
  {
    if n > 0 {
      FromLEOfToLE(v / 0x100, n - 1);
      assert ToLE(v, n)[1..] == ToLE(v / 0x100, n - 1);
    }
  }

  lemma {:induction false} ToLEOfFromLE(b: bytes)
    ensures ToLE(FromLE(b), |b|) == b
  {
    if b != [] {
      ToLEOfFromLE(b[1..]);
      assert FromLE(b) % 0x100 == b[0];
      assert FromLE(b) / 0x100 == FromLE(b[1..]);
    }
  }

  /** A 16-bit handle on the wire. */
  function LE16(v: u16): (b: bytes)
    ensures |b| == 2
  {
    [v % 0x100, v / 0x100]
  }

  lemma {:induction false} LE16Decodes(v: u16)
    ensures FromLE(LE16(v)) == v
  {
    assert LE16(v)[1..] == [v / 0x100];
    assert FromLE([v / 0x100]) == v / 0x100 + 0x100 * FromLE([]);
  }

  lemma {:induction false} FromLE16Bound(b: bytes)
    requires |b| <= 2
    ensures FromLE(b) < 0x1_0000
  {
    FromLEBound(b);
    assert Pow256(1) == 0x100 && Pow256(2) == 0x1_0000;
  }

  /** The 16-bit field at offset i, as int.from_bytes(b[i:i + 2], "little") reads it. */
  function Field16(b: bytes, i: nat): (v: u16) {
    var f := Slice(b, i, i + 2);
    FromLE16Bound(f);
    FromLE(f)
  }

  lemma {:induction false} Field16Decodes(b: bytes, i: nat, v: u16)
    requires i + 2 <= |b| && b[i..i + 2] == LE16(v)
    ensures Field16(b, i) == v
  {
    LE16Decodes(v);
  }

  lemma {:induction false} Field16OnWire(b: bytes, i: nat)
    requires i + 2 <= |b|
    ensures Field16(b, i) == b[i] as nat + 0x100 * b[i + 1] as nat
  {
    assert b[i..i + 2][1..] == [b[i + 1]];
    assert FromLE([b[i + 1]]) == b[i + 1] as nat + 0x100 * FromLE([]);
  }
}
