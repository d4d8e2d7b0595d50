/**
 The SET command write-back addresses (avdecc/aem_assemble.py, `_writeback_targets`) land on the
 fields they name, in the assembled ROM and in the identity-baked one.
 */
module Writebacks {
  import opened AemSpec
  import opened Assemble
  import opened BuildModel
  import opened Descriptors
  import opened Identity
  import opened MapServing
  import opened Octets
  import opened TwoLevel
  import opened Wrappers

  // ----- the fields inside their descriptors

  lemma {:induction false} StreamFormatField(dtype: nat, index: nat, s: Stream)
    requires StreamImage(dtype, index, s).Ok?
    ensures s.formats != [] && HoldsField(StreamImage(dtype, index, s).value, 74, Be64(s.formats[0]))
  {
    var flags := if dtype == STREAM_INPUT || s.kind == Crf then 3 else 2;
    var start := StreamStart(dtype, index, s.name, flags, s.formats[0]);
    var b := StreamImage(dtype, index, s).value;
    assert b[..82] == start;
    assert b[74..82] == start[74..82];
  }

  lemma {:induction false} SamplingRateField(rates: seq<nat>, current: nat, nIn: nat, nOut: nat, name: Bytes)
    requires AudioUnitBytes(rates, current, nIn, nOut, name).Ok?
    ensures HoldsField(AudioUnitBytes(rates, current, nIn, nOut, name).value, 136, Word32(current))
  {
    var h := AudioUnitHeader(name, current, nIn, nOut, |rates|);
    var b := AudioUnitBytes(rates, current, nIn, nOut, name).value;
    assert b[..144] == h;
    assert b[136..140] == h[136..140] == Word32(current);
  }

  lemma {:induction false} ClockSourceField(n: nat, name: Bytes)
    ensures HoldsField(ClockDomainBytes(n, name), 70, Be16(0))
  {
    var h, b := ClockDomainHeader(name, n), ClockDomainBytes(n, name);
    assert b[..76] == h;
    assert b[70..72] == h[70..72] == Be16(0);
  }

  /** IDENTIFY's value record: minimum, maximum, step, default and current. */
  const IDENTIFY_VALUE: Bytes := [0, 255, 255, 0, 0]

  lemma {:induction false} IdentifyField(name: Bytes)
    ensures HoldsField(ControlIdentifyBytes(name), 104, IDENTIFY_VALUE)
  {
  }

  // ----- the addresses

  /** Every address is its descriptor's base plus the field's offset. */
  lemma {:induction false} TargetsAreBasesPlus(spec: Spec, dir: seq<Entry>, wb: WriteBack)
    requires WritebackTargets(spec, dir) == Ok(wb)
    requires forall k :: 0 <= k < |spec.streamInputs| ==> BaseOf(dir, STREAM_INPUT, k).Some?
    requires forall k :: 0 <= k < |spec.audioMaps| ==> BaseOf(dir, AUDIO_MAP, k).Some?
    ensures AddressesAre(dir, spec, wb)
  {
    BasesPresent(dir, STREAM_INPUT, |spec.streamInputs|, 74);
    BasesPresent(dir, AUDIO_MAP, |spec.audioMaps|, 0);
  }

  ghost predicate IsBasePlus(dir: seq<Entry>, t: nat, i: nat, offset: nat, address: nat) {
    BaseOf(dir, t, i).Some? && address == BaseOf(dir, t, i).value + offset
  }

  /** Some descriptor of this key holds f at `at`. */
  ghost predicate FieldHeld(descs: seq<Desc>, t: nat, i: nat, at: nat, f: Bytes) {
    exists img :: Desc(t, i, img) in descs && HoldsField(img, at, f)
  }

  /** A target at a held field holds that field. */
  lemma {:induction false} TargetHolds(descs: seq<Desc>, dir: seq<Entry>, rom: Bytes, baked: Bytes, t: nat, i: nat,
                                       offset: nat, at: nat, f: Bytes, address: nat)
    requires AllKept(descs, dir, rom, baked) && t != ENTITY && t != AVB_INTERFACE
    requires FieldHeld(descs, t, i, at, f) && at <= offset && IsBasePlus(dir, t, i, offset, address)
    ensures address >= offset - at && HoldsInBoth(rom, baked, address - (offset - at), f)
  {
    var img :| Desc(t, i, img) in descs && HoldsField(img, at, f);
    var base := BaseOf(dir, t, i).value;
    assert KeptAt(dir, rom, baked, Desc(t, i, img));
    FieldInside(rom, base, img, at, f);
    FieldInside(baked, base, img, at, f);
  }

  /** What each SET command finds at its address: the specification's current value. */
  ghost predicate TargetsHit(rom: Bytes, baked: Bytes, wb: WriteBack, spec: Spec) {
    && HoldsInBoth(rom, baked, wb.samplingRate, Word32(spec.currentRate))
    && FormatHit(rom, baked, spec.streamOutputs, 0, wb.streamFormat)
    && HoldsInBoth(rom, baked, wb.clockSourceIndex, Be16(0))
    && wb.controlCurrent >= 4 && HoldsInBoth(rom, baked, wb.controlCurrent - 4, IDENTIFY_VALUE)
    && |wb.streamInFormat| == |spec.streamInputs| && |wb.audioMap| == |spec.audioMaps|
    && (forall k :: 0 <= k < |spec.streamInputs| ==> FormatHit(rom, baked, spec.streamInputs, k, wb.streamInFormat[k]))
    && (forall k :: 0 <= k < |spec.audioMaps| ==> MapHit(rom, baked, spec.audioMaps, k, wb.audioMap[k]))
  }

  ghost predicate FormatHit(rom: Bytes, baked: Bytes, ss: seq<Stream>, k: nat, address: nat) {
    k < |ss| && ss[k].formats != [] && HoldsInBoth(rom, baked, address, Be64(ss[k].formats[0]))
  }

  ghost predicate MapHit(rom: Bytes, baked: Bytes, maps: seq<seq<MapRow>>, k: nat, address: nat) {
    k < |maps| && HoldsInBoth(rom, baked, address, AudioMapBytes(k, maps[k]))
  }

  /** Every field the targets are for is held by its descriptor. */
  ghost predicate AllHeld(descs: seq<Desc>, spec: Spec) {
    && FieldHeld(descs, AUDIO_UNIT, 0, 136, Word32(spec.currentRate))
    && FieldHeld(descs, CLOCK_DOMAIN, 0, 70, Be16(0)) && FieldHeld(descs, CONTROL, 0, 104, IDENTIFY_VALUE)
    && (forall k :: 0 <= k < |spec.streamInputs| ==> FormatHeld(descs, STREAM_INPUT, spec.streamInputs, k))
    && (forall k :: 0 <= k < |spec.streamOutputs| ==> FormatHeld(descs, STREAM_OUTPUT, spec.streamOutputs, k))
    && (forall k :: 0 <= k < |spec.audioMaps| ==> FieldHeld(descs, AUDIO_MAP, k, 0, AudioMapBytes(k, spec.audioMaps[k])))
  }

  ghost predicate FormatHeld(descs: seq<Desc>, dtype: nat, ss: seq<Stream>, k: nat)
    requires k < |ss|
  {
    ss[k].formats != [] && FieldHeld(descs, dtype, k, 74, Be64(ss[k].formats[0]))
  }

  lemma {:induction false} SinglesHeld(spec: Spec, descs: seq<Desc>)
    requires AllDescriptors(spec) == Ok(descs)
    ensures FieldHeld(descs, AUDIO_UNIT, 0, 136, Word32(spec.currentRate))
    ensures FieldHeld(descs, CLOCK_DOMAIN, 0, 70, Be16(0)) && FieldHeld(descs, CONTROL, 0, 104, IDENTIFY_VALUE)
  {
    DescriptorsPresent(spec);
    SamplingRateField(spec.rates, spec.currentRate, |spec.portsIn|, |spec.portsOut|, spec.names.audioUnit);
    ClockSourceField(|spec.clockSources|, spec.names.clockDomain);
    IdentifyField(spec.names.controlIdentify);
  }

  lemma {:induction false} FormatIsHeld(spec: Spec, descs: seq<Desc>, dtype: nat, ss: seq<Stream>, k: nat)
    requires AllDescriptors(spec) == Ok(descs) && k < |ss|
    requires (dtype == STREAM_INPUT && ss == spec.streamInputs) || (dtype == STREAM_OUTPUT && ss == spec.streamOutputs)
    ensures FormatHeld(descs, dtype, ss, k)
  {
    StreamPresent(spec, dtype, k);
    StreamFormatField(dtype, k, ss[k]);
  }

  lemma {:induction false} WholeIsHeld(descs: seq<Desc>, d: Desc)
    requires d in descs
    ensures FieldHeld(descs, d.typ, d.idx, 0, d.img)
  {
    assert d.img[0..|d.img|] == d.img;
    assert HoldsField(d.img, 0, d.img);
  }

  lemma {:induction false} SpecHeld(spec: Spec, descs: seq<Desc>)
    requires AllDescriptors(spec) == Ok(descs)
    ensures AllHeld(descs, spec)
  {
    SinglesHeld(spec, descs);
    forall k | 0 <= k < |spec.streamInputs| ensures FormatHeld(descs, STREAM_INPUT, spec.streamInputs, k) {
      FormatIsHeld(spec, descs, STREAM_INPUT, spec.streamInputs, k);
    }
    forall k | 0 <= k < |spec.streamOutputs| ensures FormatHeld(descs, STREAM_OUTPUT, spec.streamOutputs, k) {
      FormatIsHeld(spec, descs, STREAM_OUTPUT, spec.streamOutputs, k);
    }
    forall k | 0 <= k < |spec.audioMaps| ensures FieldHeld(descs, AUDIO_MAP, k, 0, AudioMapBytes(k, spec.audioMaps[k])) {
      MapPresent(spec, k);
      WholeIsHeld(descs, Desc(AUDIO_MAP, k, AudioMapBytes(k, spec.audioMaps[k])));
    }
  }

  lemma {:induction false} FormatIsHit(descs: seq<Desc>, dir: seq<Entry>, rom: Bytes, baked: Bytes, dtype: nat,
                                       ss: seq<Stream>, k: nat, address: nat)
    requires AllKept(descs, dir, rom, baked) && (dtype == STREAM_INPUT || dtype == STREAM_OUTPUT)
    requires k < |ss| && FormatHeld(descs, dtype, ss, k) && IsBasePlus(dir, dtype, k, 74, address)
    ensures FormatHit(rom, baked, ss, k, address)
  {
    TargetHolds(descs, dir, rom, baked, dtype, k, 74, 74, Be64(ss[k].formats[0]), address);
  }

  lemma {:induction false} MapIsHit(descs: seq<Desc>, dir: seq<Entry>, rom: Bytes, baked: Bytes, maps: seq<seq<MapRow>>,
                                    k: nat, address: nat)
    requires AllKept(descs, dir, rom, baked) && k < |maps|
    requires FieldHeld(descs, AUDIO_MAP, k, 0, AudioMapBytes(k, maps[k])) && IsBasePlus(dir, AUDIO_MAP, k, 0, address)
    ensures MapHit(rom, baked, maps, k, address)
  {
    TargetHolds(descs, dir, rom, baked, AUDIO_MAP, k, 0, 0, AudioMapBytes(k, maps[k]), address);
  }

  lemma {:induction false} SinglesHit(descs: seq<Desc>, dir: seq<Entry>, rom: Bytes, baked: Bytes, rate: Bytes,
                                      source: Bytes, value: Bytes, wb: WriteBack)
    requires AllKept(descs, dir, rom, baked)
    requires FieldHeld(descs, AUDIO_UNIT, 0, 136, rate) && IsBasePlus(dir, AUDIO_UNIT, 0, 136, wb.samplingRate)
    requires FieldHeld(descs, CLOCK_DOMAIN, 0, 70, source) && IsBasePlus(dir, CLOCK_DOMAIN, 0, 70, wb.clockSourceIndex)
    requires FieldHeld(descs, CONTROL, 0, 104, value) && IsBasePlus(dir, CONTROL, 0, 108, wb.controlCurrent)
    ensures HoldsInBoth(rom, baked, wb.samplingRate, rate) && HoldsInBoth(rom, baked, wb.clockSourceIndex, source)
    ensures wb.controlCurrent >= 4 && HoldsInBoth(rom, baked, wb.controlCurrent - 4, value)
  {
    TargetHolds(descs, dir, rom, baked, AUDIO_UNIT, 0, 136, 136, rate, wb.samplingRate);
    TargetHolds(descs, dir, rom, baked, CLOCK_DOMAIN, 0, 70, 70, source, wb.clockSourceIndex);
    TargetHolds(descs, dir, rom, baked, CONTROL, 0, 108, 104, value, wb.controlCurrent);
  }

  /** The addresses, as bases plus offsets. */
  ghost predicate AddressesAre(dir: seq<Entry>, spec: Spec, wb: WriteBack) {
    && IsBasePlus(dir, AUDIO_UNIT, 0, 136, wb.samplingRate) && IsBasePlus(dir, STREAM_OUTPUT, 0, 74, wb.streamFormat)
    && IsBasePlus(dir, CLOCK_DOMAIN, 0, 70, wb.clockSourceIndex) && IsBasePlus(dir, CONTROL, 0, 108, wb.controlCurrent)
    && |wb.streamInFormat| == |spec.streamInputs| && |wb.audioMap| == |spec.audioMaps|
    && (forall k :: 0 <= k < |spec.streamInputs| ==> IsBasePlus(dir, STREAM_INPUT, k, 74, wb.streamInFormat[k]))
    && (forall k :: 0 <= k < |spec.audioMaps| ==> IsBasePlus(dir, AUDIO_MAP, k, 0, wb.audioMap[k]))
  }

  lemma {:induction false} HeldTargetsHit(descs: seq<Desc>, dir: seq<Entry>, rom: Bytes, baked: Bytes, spec: Spec,
                                          wb: WriteBack)
    requires AllKept(descs, dir, rom, baked) && AllHeld(descs, spec)
    requires AddressesAre(dir, spec, wb) && spec.streamOutputs != []
    ensures TargetsHit(rom, baked, wb, spec)
  {
    SinglesHit(descs, dir, rom, baked, Word32(spec.currentRate), Be16(0), IDENTIFY_VALUE, wb);
    FormatIsHit(descs, dir, rom, baked, STREAM_OUTPUT, spec.streamOutputs, 0, wb.streamFormat);
    forall k | 0 <= k < |spec.streamInputs| ensures FormatHit(rom, baked, spec.streamInputs, k, wb.streamInFormat[k]) {
      FormatIsHit(descs, dir, rom, baked, STREAM_INPUT, spec.streamInputs, k, wb.streamInFormat[k]);
    }
    forall k | 0 <= k < |spec.audioMaps| ensures MapHit(rom, baked, spec.audioMaps, k, wb.audioMap[k]) {
      MapIsHit(descs, dir, rom, baked, spec.audioMaps, k, wb.audioMap[k]);
    }
  }

  lemma {:induction false} HasAnOutput(spec: Spec, descs: seq<Desc>)
    requires AllDescriptors(spec) == Ok(descs) && WritebackTargets(spec, Directory(descs)).Ok?
    ensures spec.streamOutputs != []
  {
    WritebackNeedsAnOutput(spec);
  }

  /** Every SET write-back address of every built model holds the field it is for, before and after baking. */
  lemma {:induction false} WritebacksHitTheirFields(m: Model, spec: Spec, ident: Ident, baked: Bytes)
    requires IsModelOf(m, spec) && Baked(m.rom, m.overlays, ident) == Ok(baked)
    ensures AddressesAre(m.directory, spec, m.wb) && TargetsHit(m.rom, baked, m.wb, spec)
  {
    var descs, e, avb, a := TakeApart(m, spec);
    SpecHeld(spec, descs);
    StreamsLocated(spec, descs);
    TargetsAreBasesPlus(spec, m.directory, m.wb);
    HasAnOutput(spec, descs);
    BakingKeepsTheOthers(descs, e, avb, a, ident, baked);
    HeldTargetsHit(descs, m.directory, m.rom, baked, spec, m.wb);
  }
}
