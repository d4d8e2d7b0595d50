/**
 The read overlays (avdecc/aem_assemble.py, `_read_overlays`) and their baking into the image
 (avdecc/gen_aemi_image.py, `apply_identity`).
 */
module Identity {
  import opened DescriptorFields
  import opened Octets
  import opened Wrappers

  datatype Source =
    | EntityId | ModelId | ECaps | TalkerSrc | TalkerCap | ListenSink | ListenCap
    | CtrlCap | AvailIdx | AssocId | EntName8 | CurrentCfg | Mac | ClockId

  datatype Overlay = Overlay(base: nat, nbytes: nat, src: Source)

  /** The spans of ENTITY at e and AVB_INTERFACE at a. */
  function ReadOverlays(e: nat, a: nat): seq<Overlay> {
    [Overlay(e + 4, 8, EntityId), Overlay(e + 12, 8, ModelId), Overlay(e + 20, 4, ECaps),
     Overlay(e + 24, 2, TalkerSrc), Overlay(e + 26, 2, TalkerCap), Overlay(e + 28, 2, ListenSink),
     Overlay(e + 30, 2, ListenCap), Overlay(e + 32, 4, CtrlCap), Overlay(e + 36, 4, AvailIdx),
     Overlay(e + 40, 8, AssocId), Overlay(e + 48, 8, EntName8), Overlay(e + 310, 2, CurrentCfg),
     Overlay(a + 70, 6, Mac), Overlay(a + 78, 8, ClockId)]
  }

  /** The spans that are not build constants: a live counter, and the name the ROM already carries. */
  predicate Unbaked(src: Source) {
    src == AvailIdx || src == EntName8
  }

  type Ident = map<Source, Bytes>

  /** `rom[base:base + n] = val` on a bytearray, which clamps the slice to the array. */
  function Splice(rom: Bytes, base: nat, n: nat, val: Bytes): Bytes {
    var lo := if base <= |rom| then base else |rom|;
    var hi := if base + n <= |rom| then base + n else |rom|;
    rom[..lo] + val + rom[hi..]
  }

  predicate Resolved(o: Overlay, ident: Ident) {
    o.src in ident && |ident[o.src]| == o.nbytes
  }

  function Baked(rom: Bytes, overlays: seq<Overlay>, ident: Ident): Result<Bytes> {
    if overlays == [] then Ok(rom)
    else
      var n := |overlays| - 1;
      var o := overlays[n];
      var before :- Baked(rom, overlays[..n], ident);
      if Unbaked(o.src) then Ok(before)
      else if !Resolved(o, ident) then Err
      else Ok(Splice(before, o.base, o.nbytes, ident[o.src]))
  }

  /** A span neither listed as unbaked nor resolved to a value of its width is refused. */
  method ApplyIdentity(modelRom: Bytes, overlays: seq<Overlay>, ident: Ident) returns (res: Result<Bytes>)
    ensures res == Baked(modelRom, overlays, ident)
    ensures res.Ok? <==> forall o :: o in overlays ==> Unbaked(o.src) || Resolved(o, ident)
  {
    var rom := modelRom;
    for k := 0 to |overlays|
      invariant Baked(modelRom, overlays[..k], ident) == Ok(rom)
      invariant forall j :: 0 <= j < k ==> Unbaked(overlays[j].src) || Resolved(overlays[j], ident)
    {
      var o := overlays[k];
      assert overlays[..k + 1][..k] == overlays[..k];
      if Unbaked(o.src) {
        continue;
      }
      if o.src !in ident || |ident[o.src]| != o.nbytes {
        RefusalStays(modelRom, overlays, ident, k);
        assert o in overlays;
        return Err;
      }
      rom := Splice(rom, o.base, o.nbytes, ident[o.src]);
    }
    assert overlays[..|overlays|] == overlays;
    return Ok(rom);
  }

  lemma {:induction false} RefusalStays(rom: Bytes, overlays: seq<Overlay>, ident: Ident, k: nat)
    requires k < |overlays| && !Unbaked(overlays[k].src) && !Resolved(overlays[k], ident)
    ensures Baked(rom, overlays, ident) == Err
  {
    if k < |overlays| - 1 {
      RefusalStays(rom, overlays[..|overlays| - 1], ident, k);
    }
  }

  /** Baking is refused only for an unresolved span. */
  lemma {:induction false} BakedIffResolved(rom: Bytes, overlays: seq<Overlay>, ident: Ident)
    ensures Baked(rom, overlays, ident).Ok? <==> forall o :: o in overlays ==> Unbaked(o.src) || Resolved(o, ident)
  {
    if overlays != [] {
      var n := |overlays| - 1;
      BakedIffResolved(rom, overlays[..n], ident);
      assert overlays == overlays[..n] + [overlays[n]];
    }
  }

  // ----- the frame

  ghost predicate InBounds(rom: Bytes, overlays: seq<Overlay>) {
    forall k :: 0 <= k < |overlays| ==> overlays[k].base + overlays[k].nbytes <= |rom|
  }

  ghost predicate Apart(a: Overlay, b: Overlay) {
    a.base + a.nbytes <= b.base || b.base + b.nbytes <= a.base
  }

  ghost predicate PairwiseApart(overlays: seq<Overlay>) {
    forall j, k :: 0 <= j < k < |overlays| ==> Apart(overlays[j], overlays[k])
  }

  ghost predicate Covers(o: Overlay, i: nat) {
    !Unbaked(o.src) && o.base <= i < o.base + o.nbytes
  }

  ghost predicate Touched(overlays: seq<Overlay>, i: nat) {
    exists k :: 0 <= k < |overlays| && Covers(overlays[k], i)
  }

  lemma {:induction false} SpliceInBounds(rom: Bytes, o: Overlay, val: Bytes)
    requires o.base + o.nbytes <= |rom| && |val| == o.nbytes
    ensures |Splice(rom, o.base, o.nbytes, val)| == |rom|
    ensures Splice(rom, o.base, o.nbytes, val)[o.base..o.base + o.nbytes] == val
    ensures forall i :: 0 <= i < |rom| && !(o.base <= i < o.base + o.nbytes) ==>
              Splice(rom, o.base, o.nbytes, val)[i] == rom[i]
  {
  }

  ghost predicate ReadsBack(rom: Bytes, overlays: seq<Overlay>, ident: Ident, k: nat)
    requires k < |overlays|
  {
    var o := overlays[k];
    && Baked(rom, overlays, ident).Ok? && o.src in ident
    && o.base + o.nbytes <= |Baked(rom, overlays, ident).value|
    && Baked(rom, overlays, ident).value[o.base..o.base + o.nbytes] == ident[o.src]
  }

  /** One more span: what was read back still is, and the new value joins it. */
  lemma {:induction false} FrameStep(rom: Bytes, overlays: seq<Overlay>, ident: Ident, before: Bytes)
    requires overlays != [] && InBounds(rom, overlays) && PairwiseApart(overlays) && Baked(rom, overlays, ident).Ok?
    requires Baked(rom, overlays[..|overlays| - 1], ident) == Ok(before) && |before| == |rom|
    ensures |Baked(rom, overlays, ident).value| == |rom|
    ensures forall k :: 0 <= k < |overlays| - 1 && ReadsBack(rom, overlays[..|overlays| - 1], ident, k) ==>
              ReadsBack(rom, overlays, ident, k)
    ensures var n := |overlays| - 1; !Unbaked(overlays[n].src) ==> ReadsBack(rom, overlays, ident, n)
    ensures forall i :: 0 <= i < |rom| && !Covers(overlays[|overlays| - 1], i) ==>
              Baked(rom, overlays, ident).value[i] == before[i]
  {
    var n := |overlays| - 1;
    var front, o := overlays[..n], overlays[n];
    var after := Baked(rom, overlays, ident).value;
    if !Unbaked(o.src) {
      SpliceInBounds(before, o, ident[o.src]);
    }
    forall k | 0 <= k < n && ReadsBack(rom, front, ident, k) ensures ReadsBack(rom, overlays, ident, k) {
      var s := overlays[k];
      assert front[k] == s && Apart(s, o);
      assert forall i :: s.base <= i < s.base + s.nbytes ==> after[i] == before[i];
      assert after[s.base..s.base + s.nbytes] == before[s.base..s.base + s.nbytes];
    }
  }

  /** Baking disjoint spans inside the ROM writes each value and touches no other byte. */
  lemma {:induction false} BakingFrame(rom: Bytes, overlays: seq<Overlay>, ident: Ident)
    requires InBounds(rom, overlays) && PairwiseApart(overlays) && Baked(rom, overlays, ident).Ok?
    ensures |Baked(rom, overlays, ident).value| == |rom|
    ensures forall k :: 0 <= k < |overlays| && !Unbaked(overlays[k].src) ==> ReadsBack(rom, overlays, ident, k)
    ensures forall i :: 0 <= i < |rom| && !Touched(overlays, i) ==> Baked(rom, overlays, ident).value[i] == rom[i]
  {
    if overlays != [] {
      var n := |overlays| - 1;
      var front := overlays[..n];
      assert forall j :: 0 <= j < n ==> front[j] == overlays[j];
      BakingFrame(rom, front, ident);
      var before := Baked(rom, front, ident).value;
      FrameStep(rom, overlays, ident, before);
      forall k | 0 <= k < n && !Unbaked(overlays[k].src) ensures ReadsBack(rom, overlays, ident, k) {
        assert ReadsBack(rom, front, ident, k);
      }
      forall i | 0 <= i < |rom| && !Touched(overlays, i) ensures before[i] == rom[i] && !Covers(overlays[n], i) {
        forall k | 0 <= k < n ensures !Covers(front[k], i) {
          assert !Covers(overlays[k], i);
        }
      }
    }
  }

  /** The model's own overlays are in bounds and pairwise apart when its two descriptors are. */
  lemma {:induction false} OverlaysAreApart(rom: Bytes, e: nat, a: nat)
    requires e + 312 <= |rom| && a + 102 <= |rom| && (e + 312 <= a || a + 102 <= e)
    ensures InBounds(rom, ReadOverlays(e, a)) && PairwiseApart(ReadOverlays(e, a))
  {
  }

  /** The only bytes identity baking may change. */
  ghost predicate IdentityByte(e: nat, a: nat, i: nat) {
    e + 4 <= i < e + 36 || e + 40 <= i < e + 48 || e + 310 <= i < e + 312 || a + 70 <= i < a + 76 || a + 78 <= i < a + 86
  }

  lemma {:induction false} IdentityTouchesOnly(rom: Bytes, e: nat, a: nat, ident: Ident)
    requires e + 312 <= |rom| && a + 102 <= |rom| && (e + 312 <= a || a + 102 <= e)
    requires Baked(rom, ReadOverlays(e, a), ident).Ok?
    ensures |Baked(rom, ReadOverlays(e, a), ident).value| == |rom|
    ensures forall i :: 0 <= i < |rom| && !IdentityByte(e, a, i) ==> Baked(rom, ReadOverlays(e, a), ident).value[i] == rom[i]
  {
    OverlaysAreApart(rom, e, a);
    BakingFrame(rom, ReadOverlays(e, a), ident);
    forall i | 0 <= i < |rom| && !IdentityByte(e, a, i) ensures !Touched(ReadOverlays(e, a), i) {
      if k :| 0 <= k < |ReadOverlays(e, a)| && Covers(ReadOverlays(e, a)[k], i) {
        assert false;
      }
    }
  }

  /** A span clear of the identity bytes keeps its contents. */
  lemma {:induction false} IdentityKeepsSpan(rom: Bytes, e: nat, a: nat, ident: Ident, from: nat, to: nat)
    requires e + 312 <= |rom| && a + 102 <= |rom| && (e + 312 <= a || a + 102 <= e)
    requires Baked(rom, ReadOverlays(e, a), ident).Ok?
    requires from <= to <= |rom| && forall i :: from <= i < to ==> !IdentityByte(e, a, i)
    ensures |Baked(rom, ReadOverlays(e, a), ident).value| == |rom|
    ensures Baked(rom, ReadOverlays(e, a), ident).value[from..to] == rom[from..to]
  {
    IdentityTouchesOnly(rom, e, a, ident);
  }

  /** These bytes hold this span's value. */
  ghost predicate HoldsSpan(b: Bytes, ident: Ident, o: Overlay) {
    && o.src in ident && |ident[o.src]| == o.nbytes && o.base + o.nbytes <= |b|
    && b[o.base..o.base + o.nbytes] == ident[o.src]
  }

  ghost predicate HoldsSpans(b: Bytes, ident: Ident, overlays: seq<Overlay>) {
    forall k :: 0 <= k < |overlays| && !Unbaked(overlays[k].src) ==> HoldsSpan(b, ident, overlays[k])
  }

  /** Every baked span reads back its value. */
  lemma {:induction false} SpansReadBack(rom: Bytes, e: nat, a: nat, ident: Ident, baked: Bytes)
    requires e + 312 <= |rom| && a + 102 <= |rom| && (e + 312 <= a || a + 102 <= e)
    requires Baked(rom, ReadOverlays(e, a), ident) == Ok(baked)
    ensures |baked| == |rom| && HoldsSpans(baked, ident, ReadOverlays(e, a))
  {
    OverlaysAreApart(rom, e, a);
    BakingFrame(rom, ReadOverlays(e, a), ident);
    BakedIffResolved(rom, ReadOverlays(e, a), ident);
    HeldAsRead(rom, ReadOverlays(e, a), ident, baked);
  }

  lemma {:induction false} HeldAsRead(rom: Bytes, overlays: seq<Overlay>, ident: Ident, baked: Bytes)
    requires Baked(rom, overlays, ident) == Ok(baked)
    requires forall o :: o in overlays ==> Unbaked(o.src) || Resolved(o, ident)
    requires forall k :: 0 <= k < |overlays| && !Unbaked(overlays[k].src) ==> ReadsBack(rom, overlays, ident, k)
    ensures HoldsSpans(baked, ident, overlays)
  {
    forall k | 0 <= k < |overlays| && !Unbaked(overlays[k].src) ensures HoldsSpan(baked, ident, overlays[k]) {
      assert overlays[k] in overlays && ReadsBack(rom, overlays, ident, k);
    }
  }

  /** A field of a descriptor slice is the field of the image it was cut from. */
  lemma {:induction false} SliceField(b: Bytes, from: nat, to: nat, at: nat, f: Bytes)
    requires from <= to <= |b| && at + |f| <= to - from && b[from + at..from + at + |f|] == f
    ensures b[from..to][at..at + |f|] == f
  {
    forall i | 0 <= i < |f| ensures b[from..to][at..at + |f|][i] == f[i] {
      assert b[from + at..from + at + |f|][i] == b[from + at + i];
    }
  }

  /** The decoded ENTITY carries the advertised identity. */
  ghost predicate EntityCarries(fields: Result<Fields>, ident: Ident) {
    && fields.Ok? && fields.value.EntityFields?
    && EntityId in ident && |ident[EntityId]| == 8 && fields.value.entityId == U64(ident[EntityId], 0)
    && ModelId in ident && |ident[ModelId]| == 8 && fields.value.modelId == U64(ident[ModelId], 0)
    && ECaps in ident && |ident[ECaps]| == 4 && fields.value.capabilities == U32(ident[ECaps], 0)
    && TalkerSrc in ident && |ident[TalkerSrc]| == 2 && fields.value.talkerSources == U16(ident[TalkerSrc], 0)
    && TalkerCap in ident && |ident[TalkerCap]| == 2 && fields.value.talkerCaps == U16(ident[TalkerCap], 0)
    && ListenSink in ident && |ident[ListenSink]| == 2 && fields.value.listenerSinks == U16(ident[ListenSink], 0)
    && ListenCap in ident && |ident[ListenCap]| == 2 && fields.value.listenerCaps == U16(ident[ListenCap], 0)
    && CurrentCfg in ident && |ident[CurrentCfg]| == 2 && fields.value.currentConfig == U16(ident[CurrentCfg], 0)
  }

  /** The field of a descriptor holds this source's value. */
  ghost predicate FieldCarries(d: Bytes, at: nat, n: nat, ident: Ident, src: Source) {
    src in ident && |ident[src]| == n && at + n <= |d| && d[at..at + n] == ident[src]
  }

  lemma {:induction false} FieldReads(d: Bytes, at: nat, n: nat, ident: Ident, src: Source)
    requires FieldCarries(d, at, n, ident, src)
    ensures n == 2 ==> U16(d, at) == U16(ident[src], 0)
    ensures n == 4 ==> U32(d, at) == U32(ident[src], 0)
    ensures n == 8 ==> U64(d, at) == U64(ident[src], 0)
  {
    if n == 2 {
      FieldIs16(d, at, ident[src]);
    } else if n == 4 {
      FieldIs32(d, at, ident[src]);
    } else if n == 8 {
      FieldIs64(d, at, ident[src]);
    }
  }

  /** Span k lies in the descriptor of this length at base, `at` octets in, and reads its source there. */
  lemma {:induction false} HeldFieldReads(b: Bytes, base: nat, length: nat, spans: seq<Overlay>, ident: Ident, k: nat,
                                          at: nat, n: nat, src: Source)
    requires base + length <= |b| && HoldsSpans(b, ident, spans) && at + n <= length && !Unbaked(src)
    requires k < |spans| && spans[k] == Overlay(base + at, n, src)
    ensures FieldCarries(b[base..base + length], at, n, ident, src)
  {
    assert HoldsSpan(b, ident, spans[k]);
    SliceField(b, base, base + length, at, ident[src]);
  }

  /** The spans of ENTITY that are baked. */
  ghost predicate EntitySpans(spans: seq<Overlay>, e: nat) {
    && |spans| == 14
    && spans[0] == Overlay(e + 4, 8, EntityId) && spans[1] == Overlay(e + 12, 8, ModelId)
    && spans[2] == Overlay(e + 20, 4, ECaps)
    && spans[3] == Overlay(e + 24, 2, TalkerSrc) && spans[4] == Overlay(e + 26, 2, TalkerCap)
    && spans[5] == Overlay(e + 28, 2, ListenSink) && spans[6] == Overlay(e + 30, 2, ListenCap)
    && spans[7] == Overlay(e + 32, 4, CtrlCap) && spans[9] == Overlay(e + 40, 8, AssocId)
    && spans[11] == Overlay(e + 310, 2, CurrentCfg)
  }

  ghost predicate InterfaceSpans(spans: seq<Overlay>, a: nat) {
    |spans| == 14 && spans[12] == Overlay(a + 70, 6, Mac) && spans[13] == Overlay(a + 78, 8, ClockId)
  }

  lemma {:induction false} OverlaysHaveBoth(e: nat, a: nat)
    ensures EntitySpans(ReadOverlays(e, a), e) && InterfaceSpans(ReadOverlays(e, a), a)
  {
  }

  /** The octets of an ENTITY that hold the advertised identity. */
  ghost predicate EntityHolds(d: Bytes, ident: Ident) {
    && |d| == 312 && FieldCarries(d, 4, 8, ident, EntityId) && FieldCarries(d, 12, 8, ident, ModelId)
    && FieldCarries(d, 20, 4, ident, ECaps)
    && FieldCarries(d, 24, 2, ident, TalkerSrc) && FieldCarries(d, 26, 2, ident, TalkerCap)
    && FieldCarries(d, 28, 2, ident, ListenSink) && FieldCarries(d, 30, 2, ident, ListenCap)
    && FieldCarries(d, 32, 4, ident, CtrlCap) && FieldCarries(d, 40, 8, ident, AssocId)
    && FieldCarries(d, 310, 2, ident, CurrentCfg)
  }

  lemma {:induction false} EntityDecodes(d: Bytes, ident: Ident)
    requires EntityHolds(d, ident)
    ensures EntityCarries(EntityOf(d), ident)
  {
    FieldReads(d, 4, 8, ident, EntityId);
    FieldReads(d, 12, 8, ident, ModelId);
    FieldReads(d, 20, 4, ident, ECaps);
    FieldReads(d, 24, 2, ident, TalkerSrc);
    FieldReads(d, 26, 2, ident, TalkerCap);
    FieldReads(d, 28, 2, ident, ListenSink);
    FieldReads(d, 30, 2, ident, ListenCap);
    FieldReads(d, 310, 2, ident, CurrentCfg);
  }

  /** ENTITY's own spans, in a slice of the descriptor. */
  lemma {:induction false} EntitySpansHeld(b: Bytes, e: nat, spans: seq<Overlay>, ident: Ident)
    requires e + 312 <= |b| && HoldsSpans(b, ident, spans) && EntitySpans(spans, e)
    ensures EntityHolds(b[e..e + 312], ident)
  {
    HeldFieldReads(b, e, 312, spans, ident, 0, 4, 8, EntityId);
    HeldFieldReads(b, e, 312, spans, ident, 1, 12, 8, ModelId);
    HeldFieldReads(b, e, 312, spans, ident, 2, 20, 4, ECaps);
    HeldFieldReads(b, e, 312, spans, ident, 3, 24, 2, TalkerSrc);
    HeldFieldReads(b, e, 312, spans, ident, 4, 26, 2, TalkerCap);
    HeldFieldReads(b, e, 312, spans, ident, 5, 28, 2, ListenSink);
    HeldFieldReads(b, e, 312, spans, ident, 6, 30, 2, ListenCap);
    HeldFieldReads(b, e, 312, spans, ident, 7, 32, 4, CtrlCap);
    HeldFieldReads(b, e, 312, spans, ident, 9, 40, 8, AssocId);
    HeldFieldReads(b, e, 312, spans, ident, 11, 310, 2, CurrentCfg);
  }

  /** The octets of an AVB_INTERFACE that hold the station's MAC and clock identity. */
  ghost predicate InterfaceHolds(d: Bytes, ident: Ident) {
    |d| == 102 && FieldCarries(d, 70, 6, ident, Mac) && FieldCarries(d, 78, 8, ident, ClockId)
  }

  lemma {:induction false} InterfaceDecodes(d: Bytes, ident: Ident)
    requires InterfaceHolds(d, ident)
    ensures InterfaceCarries(AvbInterfaceOf(d), ident)
  {
  }

  /** AVB_INTERFACE's own spans likewise. */
  lemma {:induction false} InterfaceSpansHeld(b: Bytes, a: nat, spans: seq<Overlay>, ident: Ident)
    requires a + 102 <= |b| && HoldsSpans(b, ident, spans) && InterfaceSpans(spans, a)
    ensures InterfaceHolds(b[a..a + 102], ident)
  {
    HeldFieldReads(b, a, 102, spans, ident, 12, 70, 6, Mac);
    HeldFieldReads(b, a, 102, spans, ident, 13, 78, 8, ClockId);
  }

  lemma {:induction false} BothSpansHeld(b: Bytes, e: nat, a: nat, spans: seq<Overlay>, ident: Ident)
    requires e + 312 <= |b| && a + 102 <= |b| && HoldsSpans(b, ident, spans)
    requires EntitySpans(spans, e) && InterfaceSpans(spans, a)
    ensures EntityHolds(b[e..e + 312], ident) && InterfaceHolds(b[a..a + 102], ident)
  {
    EntitySpansHeld(b, e, spans, ident);
    InterfaceSpansHeld(b, a, spans, ident);
  }

  /** The decoded AVB_INTERFACE carries the station's MAC and clock identity. */
  ghost predicate InterfaceCarries(fields: Result<Fields>, ident: Ident) {
    && fields.Ok? && fields.value.AvbInterfaceFields?
    && Mac in ident && fields.value.mac == ident[Mac]
    && ClockId in ident && fields.value.clockIdentity == ident[ClockId]
  }

  /** Baking leaves the identity in the octets of both descriptors. */
  lemma {:induction false} BakedIdentityHeld(rom: Bytes, e: nat, a: nat, ident: Ident, baked: Bytes)
    requires e + 312 <= |rom| && a + 102 <= |rom| && (e + 312 <= a || a + 102 <= e)
    requires Baked(rom, ReadOverlays(e, a), ident) == Ok(baked)
    ensures |baked| == |rom| && EntityHolds(baked[e..e + 312], ident) && InterfaceHolds(baked[a..a + 102], ident)
  {
    SpansReadBack(rom, e, a, ident, baked);
    OverlaysHaveBoth(e, a);
    BothSpansHeld(baked, e, a, ReadOverlays(e, a), ident);
  }

  /**
   The baked image and the independent decoder agree on where the identity lives: decoding the
   baked ENTITY yields the identity numbers.
   */
  lemma {:induction false} BakedEntityReads(rom: Bytes, e: nat, a: nat, ident: Ident, baked: Bytes)
    requires e + 312 <= |rom| && a + 102 <= |rom| && (e + 312 <= a || a + 102 <= e)
    requires Baked(rom, ReadOverlays(e, a), ident) == Ok(baked)
    ensures |baked| == |rom| && EntityCarries(EntityOf(baked[e..e + 312]), ident)
  {
    BakedIdentityHeld(rom, e, a, ident, baked);
    EntityDecodes(baked[e..e + 312], ident);
  }

  /** Decoding the baked AVB_INTERFACE yields its MAC and clock identity. */
  lemma {:induction false} BakedInterfaceReads(rom: Bytes, e: nat, a: nat, ident: Ident, baked: Bytes)
    requires e + 312 <= |rom| && a + 102 <= |rom| && (e + 312 <= a || a + 102 <= e)
    requires Baked(rom, ReadOverlays(e, a), ident) == Ok(baked)
    ensures |baked| == |rom| && InterfaceCarries(AvbInterfaceOf(baked[a..a + 102]), ident)
  {
    BakedIdentityHeld(rom, e, a, ident, baked);
    InterfaceDecodes(baked[a..a + 102], ident);
  }
}
