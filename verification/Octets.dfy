/** Octet strings and the big-endian fields of the descriptors (avdecc/aem_descriptors.py). */
module Octets {
  import opened Wrappers

  type byte = x: int | 0 <= x < 256

  type Bytes = seq<byte>

  /** `be16` masks its argument to sixteen bits. */
  function Be16(v: nat): (b: Bytes)
    ensures |b| == 2
  {
    [v / 256 % 256, v % 256]
  }

  /** The four octets of a value in the unsigned 32-bit range. */
  function Word32(v: nat): (b: Bytes)
    ensures |b| == 4
  {
    Be16(v / 0x1_0000) + Be16(v)
  }

  predicate IsU32(v: nat) {
    v < 0x1_0000_0000
  }

  /** `be32` refuses a value past that range. */
  function Be32(v: nat): Result<Bytes> {
    if IsU32(v) then Ok(Word32(v)) else Err
  }

  /** `be64` masks its argument to sixty-four bits. */
  function Be64(v: nat): (b: Bytes)
    ensures |b| == 8
  {
    Be16(v / 0x1_0000_0000_0000) + Be16(v / 0x1_0000_0000) + Be16(v / 0x1_0000) + Be16(v)
  }

  function Zeros(n: nat): (b: Bytes)
    ensures |b| == n && forall i :: 0 <= i < n ==> b[i] == 0
  {
    seq(n, _ => 0)
  }

  const NAME_BYTES: nat := 64

  /** `cstr`: an encoded string cut at 64 octets and zero-padded to them. */
  function Cstr(s: Bytes): (b: Bytes)
    ensures |b| == NAME_BYTES
  {
    var head := if |s| <= NAME_BYTES then s else s[..NAME_BYTES];
    head + Zeros(NAME_BYTES - |head|)
  }

  // ----- reading fields back

  function U16(b: Bytes, at: nat): (v: nat)
    requires at + 2 <= |b|
    ensures v < 0x1_0000
  {
    (b[at] as int) * 256 + b[at + 1] as int
  }

  function U32(b: Bytes, at: nat): (v: nat)
    requires at + 4 <= |b|
    ensures v < 0x1_0000_0000
  {
    U16(b, at) * 0x1_0000 + U16(b, at + 2)
  }

  function U64(b: Bytes, at: nat): nat
    requires at + 8 <= |b|
  {
    U32(b, at) * 0x1_0000_0000 + U32(b, at + 4)
  }

  function Mask16(v: nat): nat { v % 0x1_0000 }

  function Mask64(v: nat): nat { v % 0x1_0000_0000_0000_0000 }

  lemma {:induction false} Be16Reads(v: nat)
    ensures U16(Be16(v), 0) == Mask16(v)
  {
  }

  lemma {:induction false} Be32Reads(v: nat)
    requires IsU32(v)
    ensures U32(Word32(v), 0) == v
  {
    Be16Reads(v / 0x1_0000);
    Be16Reads(v);
    assert Word32(v)[..2] == Be16(v / 0x1_0000) && Word32(v)[2..] == Be16(v);
  }

  lemma {:induction false} Halves32(v: nat)
    ensures v % 0x1_0000_0000 == v / 0x1_0000 % 0x1_0000 * 0x1_0000 + v % 0x1_0000
  {
  }

  lemma {:induction false} Halves64(v: nat)
    ensures Mask64(v) == v / 0x1_0000_0000 % 0x1_0000_0000 * 0x1_0000_0000 + v % 0x1_0000_0000
  {
  }

  lemma {:induction false} Be64Reads(v: nat)
    ensures U64(Be64(v), 0) == Mask64(v)
  {
    var m, hi := Be64(v), v / 0x1_0000_0000;
    assert v / 0x1_0000_0000_0000 == hi / 0x1_0000;
    assert m[..2] == Be16(hi / 0x1_0000) && m[2..4] == Be16(hi) && m[4..6] == Be16(v / 0x1_0000) && m[6..] == Be16(v);
    Be16Reads(hi / 0x1_0000);
    Be16Reads(hi);
    Be16Reads(v / 0x1_0000);
    Be16Reads(v);
    assert U16(m, 0) == Mask16(hi / 0x1_0000) && U16(m, 2) == Mask16(hi);
    assert U16(m, 4) == Mask16(v / 0x1_0000) && U16(m, 6) == Mask16(v);
    Halves32(hi);
    Halves32(v);
    Halves64(v);
  }

  lemma {:induction false} SliceOfSlice(b: Bytes, base: nat, length: nat, at: nat, w: nat)
    requires base + length <= |b| && at + w <= length
    ensures b[base..base + length][at..at + w] == b[base + at..base + at + w]
  {
    var part, direct := b[base..base + length][at..at + w], b[base + at..base + at + w];
    forall i | 0 <= i < w ensures part[i] == direct[i] {
      assert part[i] == b[base + at + i];
    }
    assert |part| == |direct|;
  }

  lemma {:induction false} FieldIs16(b: Bytes, at: nat, f: Bytes)
    requires at + 2 <= |b| && b[at..at + 2] == f
    ensures U16(b, at) == U16(f, 0)
  {
    assert b[at] == f[0] && b[at + 1] == f[1];
  }

  lemma {:induction false} FieldIs32(b: Bytes, at: nat, f: Bytes)
    requires at + 4 <= |b| && b[at..at + 4] == f
    ensures U32(b, at) == U32(f, 0)
  {
    assert b[at] == f[0] && b[at + 1] == f[1] && b[at + 2] == f[2] && b[at + 3] == f[3];
  }

  lemma {:induction false} FieldIs64(b: Bytes, at: nat, f: Bytes)
    requires at + 8 <= |b| && b[at..at + 8] == f
    ensures U64(b, at) == U64(f, 0)
  {
    assert b[at..at + 8][..4] == f[..4] && b[at..at + 8][4..] == f[4..];
    FieldIs32(b, at, f[..4]);
    FieldIs32(b, at + 4, f[4..]);
    FieldIs32(f, 0, f[..4]);
    FieldIs32(f, 4, f[4..]);
  }

  // ----- lists of equal-width records

  /** The records written one after the other. */
  function Flat(records: seq<Bytes>): Bytes {
    if records == [] then [] else Flat(records[..|records| - 1]) + records[|records| - 1]
  }

  ghost predicate Uniform(records: seq<Bytes>, w: nat) {
    forall i :: 0 <= i < |records| ==> |records[i]| == w
  }

  lemma {:induction false} FlatLength(records: seq<Bytes>, w: nat)
    requires Uniform(records, w)
    ensures |Flat(records)| == w * |records|
  {
    if records != [] {
      var n := |records| - 1;
      FlatLength(records[..n], w);
      assert w * (n + 1) == w * n + w;
    }
  }

  lemma {:induction false} SliceOfFront(front: Bytes, last: Bytes, from: nat, to: nat)
    requires from <= to <= |front|
    ensures (front + last)[from..to] == front[from..to]
  {
  }

  lemma {:induction false} SliceOfLast(front: Bytes, last: Bytes)
    ensures (front + last)[|front|..|front| + |last|] == last
  {
  }

  lemma {:induction false} FlatAt(records: seq<Bytes>, w: nat, i: nat)
    requires Uniform(records, w) && i < |records|
    ensures w * i + w <= |Flat(records)| && Flat(records)[w * i..w * i + w] == records[i]
  {
    var n, from := |records| - 1, w * i;
    var front, last := Flat(records[..n]), records[n];
    assert Flat(records) == front + last;
    if i < n {
      FlatAt(records[..n], w, i);
      SliceOfFront(front, last, from, from + w);
      assert records[..n][i] == records[i];
    } else {
      FlatLength(records[..n], w);
      SliceOfLast(front, last);
    }
  }
}
