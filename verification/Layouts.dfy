/**
 The descriptors octet by octet, clause 7.2 of IEEE 1722.1-2021: which value sits at which offset of
 each descriptor, stated over the finished octets (avdecc/aem_descriptors.py).
 */
module Layouts {
  import opened AemSpec
  import opened Descriptors
  import opened Octets

  // ----- one field

  /** A 16-bit field: the value modulo 2^16, big end first. */
  ghost predicate Has16(b: Bytes, at: nat, v: nat) {
    at + 2 <= |b| && (b[at] as int) * 256 + b[at + 1] as int == v % 65536
  }

  ghost predicate Has32(b: Bytes, at: nat, v: nat) {
    && at + 4 <= |b| && v < 0x1_0000_0000
    && Has16(b, at, v / 65536) && Has16(b, at + 2, v)
  }

  ghost predicate Has64(b: Bytes, at: nat, v: nat) {
    && at + 8 <= |b|
    && Has16(b, at, v / 0x1_0000_0000_0000) && Has16(b, at + 2, v / 0x1_0000_0000)
    && Has16(b, at + 4, v / 65536) && Has16(b, at + 6, v)
  }

  /** A 64-octet string: as much of the text as fits, then zeros. */
  ghost predicate HasText(b: Bytes, at: nat, s: Bytes) {
    at + 64 <= |b| && forall i :: at <= i < at + 64 ==> b[i] == if i - at < |s| then s[i - at] else 0
  }

  ghost predicate HasZeros(b: Bytes, at: nat, n: nat) {
    at + n <= |b| && forall i :: at <= i < at + n ==> b[i] == 0
  }

  lemma {:induction false} Put16(b: Bytes, at: nat, v: nat)
    requires at + 2 <= |b| && b[at..at + 2] == Be16(v)
    ensures Has16(b, at, v)
  {
    Be16Reads(v);
    FieldIs16(b, at, Be16(v));
  }

  lemma {:induction false} Put32(b: Bytes, at: nat, v: nat)
    requires IsU32(v) && at + 4 <= |b| && b[at..at + 4] == Word32(v)
    ensures Has32(b, at, v)
  {
    SliceOfSlice(b, at, 4, 0, 2);
    SliceOfSlice(b, at, 4, 2, 2);
    assert Word32(v)[0..2] == Be16(v / 0x1_0000) && Word32(v)[2..4] == Be16(v);
    Put16(b, at, v / 0x1_0000);
    Put16(b, at + 2, v);
  }

  lemma {:induction false} Put64(b: Bytes, at: nat, v: nat)
    requires at + 8 <= |b| && b[at..at + 8] == Be64(v)
    ensures Has64(b, at, v)
  {
    var f := Be64(v);
    SliceOfSlice(b, at, 8, 0, 2);
    SliceOfSlice(b, at, 8, 2, 2);
    SliceOfSlice(b, at, 8, 4, 2);
    SliceOfSlice(b, at, 8, 6, 2);
    assert f[0..2] == Be16(v / 0x1_0000_0000_0000) && f[2..4] == Be16(v / 0x1_0000_0000);
    assert f[4..6] == Be16(v / 0x1_0000) && f[6..8] == Be16(v);
    Put16(b, at, v / 0x1_0000_0000_0000);
    Put16(b, at + 2, v / 0x1_0000_0000);
    Put16(b, at + 4, v / 0x1_0000);
    Put16(b, at + 6, v);
  }

  lemma {:induction false} PutText(b: Bytes, at: nat, s: Bytes)
    requires at + 64 <= |b| && b[at..at + 64] == Cstr(s)
    ensures HasText(b, at, s)
  {
    forall i | at <= i < at + 64 ensures b[i] == if i - at < |s| then s[i - at] else 0 {
      assert b[i] == b[at..at + 64][i - at];
    }
  }

  lemma {:induction false} PutZeros(b: Bytes, at: nat, n: nat)
    requires at + n <= |b| && b[at..at + n] == Zeros(n)
    ensures HasZeros(b, at, n)
  {
    forall i | at <= i < at + n ensures b[i] == 0 {
      assert b[i] == b[at..at + n][i - at];
    }
  }

  /** A field of the header stays where it is when a list follows. */
  lemma {:induction false} Behind(h: Bytes, tail: Bytes)
    ensures forall at: nat, v: nat :: Has16(h, at, v) ==> Has16(h + tail, at, v)
    ensures forall at: nat, v: nat :: Has32(h, at, v) ==> Has32(h + tail, at, v)
    ensures forall at: nat, v: nat :: Has64(h, at, v) ==> Has64(h + tail, at, v)
    ensures forall at: nat, s: Bytes :: HasText(h, at, s) ==> HasText(h + tail, at, s)
    ensures forall at: nat, n: nat :: HasZeros(h, at, n) ==> HasZeros(h + tail, at, n)
  {
  }

  /** Record k of a list sits w octets per record behind the header. */
  lemma {:induction false} RecordAt(h: Bytes, records: seq<Bytes>, w: nat, k: nat)
    requires Uniform(records, w) && k < |records|
    ensures |h| + w * k + w <= |h + Flat(records)|
    ensures (h + Flat(records))[|h| + w * k..|h| + w * k + w] == records[k]
  {
    FlatAt(records, w, k);
    FlatLength(records, w);
    var all, at := h + Flat(records), |h| + w * k;
    assert all[at..at + w] == Flat(records)[w * k..w * k + w];
  }

  // ----- ENTITY, but for the fields identity baking fills

  ghost predicate EntityLaid(b: Bytes, e: EntityText) {
    && |b| == 312 && Has16(b, 0, 0) && Has16(b, 2, 0)
    && HasZeros(b, 36, 4) && HasText(b, 48, e.name)
    && Has16(b, 112, 2) && Has16(b, 114, 0)
    && HasText(b, 116, e.firmware) && HasText(b, 180, e.group) && HasText(b, 244, e.serial)
    && Has16(b, 308, 1)
  }

  lemma {:induction false} EntityTexts(e: EntityText)
    ensures var b := EntityBytes(e);
            b[48..112] == Cstr(e.name) && b[116..180] == Cstr(e.firmware) && b[180..244] == Cstr(e.group)
            && b[244..308] == Cstr(e.serial)
  {
  }

  lemma {:induction false} EntityWords(e: EntityText)
    ensures var b := EntityBytes(e);
            b[0..2] == Be16(0) && b[2..4] == Be16(0) && b[36..40] == Zeros(4)
            && b[112..114] == Be16(2) && b[114..116] == Be16(0) && b[308..310] == Be16(1)
  {
  }

  lemma {:induction false} EntityIsLaid(e: EntityText)
    ensures EntityLaid(EntityBytes(e), e)
  {
    var b := EntityBytes(e);
    EntityTexts(e);
    EntityWords(e);
    Put16(b, 0, 0);
    Put16(b, 2, 0);
    PutZeros(b, 36, 4);
    PutText(b, 48, e.name);
    Put16(b, 112, 2);
    Put16(b, 114, 0);
    PutText(b, 116, e.firmware);
    PutText(b, 180, e.group);
    PutText(b, 244, e.serial);
    Put16(b, 308, 1);
  }

  // ----- AVB_INTERFACE, but for the MAC and the clock identity

  ghost predicate InterfaceLaid(b: Bytes, gp: Gptp, name: Bytes) {
    && |b| == 102 && Has16(b, 0, 9) && Has16(b, 2, 0) && HasText(b, 4, name) && Has16(b, 68, 0xFFFF)
    && Has16(b, 76, 7)
    && b[86] == gp.priority1 && b[87] == gp.clockClass && Has16(b, 88, gp.variance)
    && b[90] == gp.accuracy && b[91] == gp.priority2 && b[92] == gp.domain
    && b[93] == gp.logSync && b[94] == gp.logAnnounce && b[95] == gp.logPdelay
    && Has16(b, 96, gp.portNumber) && Has16(b, 98, 0) && Has16(b, 100, 0)
  }

  lemma {:induction false} InterfaceWords(gp: Gptp, name: Bytes)
    ensures var b := AvbInterfaceBytes(gp, name);
            && b[0..2] == Be16(9) && b[2..4] == Be16(0) && b[68..70] == Be16(0xFFFF) && b[76..78] == Be16(7)
            && b[88..90] == Be16(gp.variance) && b[96..98] == Be16(gp.portNumber)
            && b[98..100] == Be16(0) && b[100..102] == Be16(0)
  {
  }

  lemma {:induction false} InterfaceOctets(gp: Gptp, name: Bytes)
    ensures var b := AvbInterfaceBytes(gp, name);
            && b[86] == gp.priority1 && b[87] == gp.clockClass
            && b[90] == gp.accuracy && b[91] == gp.priority2 && b[92] == gp.domain
            && b[93] == gp.logSync && b[94] == gp.logAnnounce && b[95] == gp.logPdelay
  {
  }

  lemma {:induction false} InterfaceIsLaid(gp: Gptp, name: Bytes)
    ensures InterfaceLaid(AvbInterfaceBytes(gp, name), gp, name)
  {
    var b := AvbInterfaceBytes(gp, name);
    InterfaceWords(gp, name);
    InterfaceOctets(gp, name);
    Put16(b, 0, 9);
    Put16(b, 2, 0);
    PutText(b, 4, name);
    Put16(b, 68, 0xFFFF);
    Put16(b, 76, 7);
    Put16(b, 88, gp.variance);
    Put16(b, 96, gp.portNumber);
    Put16(b, 98, 0);
    Put16(b, 100, 0);
  }

  // ----- the other descriptors of fixed length

  ghost predicate ClockSourceLaid(b: Bytes, k: nat, cs: ClockSource) {
    && |b| == 86 && Has16(b, 0, 10) && Has16(b, 2, k) && HasText(b, 4, cs.name) && Has16(b, 68, 0xFFFF)
    && Has16(b, 70, 2) && Has16(b, 72, cs.csType) && HasZeros(b, 74, 8)
    && Has16(b, 82, cs.locType) && Has16(b, 84, cs.locIndex)
  }

  lemma {:induction false} ClockSourceIsLaid(k: nat, cs: ClockSource)
    ensures ClockSourceLaid(ClockSourceBytes(k, cs.name, cs.csType, cs.locType, cs.locIndex), k, cs)
  {
    var b := ClockSourceBytes(k, cs.name, cs.csType, cs.locType, cs.locIndex);
    Put16(b, 0, 10);
    Put16(b, 2, k);
    PutText(b, 4, cs.name);
    Put16(b, 68, 0xFFFF);
    Put16(b, 70, 2);
    Put16(b, 72, cs.csType);
    PutZeros(b, 74, 8);
    Put16(b, 82, cs.locType);
    Put16(b, 84, cs.locIndex);
  }

  /** The IDENTIFY control: its type word, no automatic reset, and the value record. */
  ghost predicate ControlLaid(b: Bytes, name: Bytes) {
    && |b| == 113 && Has16(b, 0, 26) && Has16(b, 2, 0) && HasText(b, 4, name) && Has16(b, 68, 0xFFFF)
    && Has32(b, 70, 500) && Has32(b, 74, 500) && Has16(b, 78, 0) && Has16(b, 80, 1)
    && Has64(b, 82, 0x90E0_F000_0000_0001) && Has32(b, 90, 0) && Has16(b, 94, 104) && Has16(b, 96, 1)
    && Has16(b, 98, 0xFFFF) && Has16(b, 100, 0) && Has16(b, 102, 0)
    && b[104] == 0 && b[105] == 255 && b[106] == 255 && b[107] == 0 && b[108] == 0
    && Has16(b, 109, 0) && Has16(b, 111, 0xFFFF)
  }

  lemma {:induction false} ControlFrontWords(name: Bytes)
    ensures var b := ControlIdentifyBytes(name);
            && b[0..2] == Be16(26) && b[2..4] == Be16(0) && b[68..70] == Be16(0xFFFF)
            && b[78..80] == Be16(0) && b[80..82] == Be16(1)
  {
    var b := ControlIdentifyBytes(name);
    assert b[78] == 0 && b[79] == 0 && b[80] == 0 && b[81] == 1;
  }

  lemma {:induction false} ControlBackWords(name: Bytes)
    ensures var b := ControlIdentifyBytes(name);
            && b[94..96] == Be16(104) && b[96..98] == Be16(1)
            && b[98..100] == Be16(0xFFFF) && b[100..102] == Be16(0) && b[102..104] == Be16(0)
            && b[109..111] == Be16(0) && b[111..113] == Be16(0xFFFF)
  {
  }

  lemma {:induction false} ControlLongWords(name: Bytes)
    ensures var b := ControlIdentifyBytes(name);
            && b[70..74] == Word32(500) && b[74..78] == Word32(500)
            && b[82..90] == Be64(0x90E0_F000_0000_0001) && b[90..94] == Word32(0)
            && b[104] == 0 && b[105] == 255 && b[106] == 255 && b[107] == 0 && b[108] == 0
  {
  }

  lemma {:induction false} ControlIsLaid(name: Bytes)
    ensures ControlLaid(ControlIdentifyBytes(name), name)
  {
    var b := ControlIdentifyBytes(name);
    ControlFrontWords(name);
    ControlBackWords(name);
    ControlLongWords(name);
    Put16(b, 0, 26);
    Put16(b, 2, 0);
    PutText(b, 4, name);
    Put16(b, 68, 0xFFFF);
    Put32(b, 70, 500);
    Put32(b, 74, 500);
    Put16(b, 78, 0);
    Put16(b, 80, 1);
    Put64(b, 82, 0x90E0_F000_0000_0001);
    Put32(b, 90, 0);
    Put16(b, 94, 104);
    Put16(b, 96, 1);
    Put16(b, 98, 0xFFFF);
    Put16(b, 100, 0);
    Put16(b, 102, 0);
    Put16(b, 109, 0);
    Put16(b, 111, 0xFFFF);
  }

  ghost predicate LocaleLaid(b: Bytes, identifier: Bytes) {
    |b| == 72 && Has16(b, 0, 12) && Has16(b, 2, 0) && HasText(b, 4, identifier) && Has16(b, 68, 1) && Has16(b, 70, 0)
  }

  lemma {:induction false} LocaleIsLaid(identifier: Bytes)
    ensures LocaleLaid(LocaleBytes(identifier), identifier)
  {
    var b := LocaleBytes(identifier);
    Put16(b, 0, 12);
    Put16(b, 2, 0);
    PutText(b, 4, identifier);
    Put16(b, 68, 1);
    Put16(b, 70, 0);
  }

  /** Entity name, rates and vendor, in that order, and four empty strings. */
  ghost predicate StringsLaid(b: Bytes, name: Bytes, rates: Bytes, vendor: Bytes) {
    && |b| == 452 && Has16(b, 0, 13) && Has16(b, 2, 0)
    && HasText(b, 4, name) && HasText(b, 68, rates) && HasText(b, 132, vendor) && HasZeros(b, 196, 256)
  }

  lemma {:induction false} EmptyStrings(b: Bytes, at: nat)
    requires HasText(b, at, []) && HasText(b, at + 64, []) && HasText(b, at + 128, []) && HasText(b, at + 192, [])
    ensures HasZeros(b, at, 256)
  {
  }

  lemma {:induction false} StringsIsLaid(name: Bytes, rates: Bytes, vendor: Bytes)
    ensures StringsLaid(StringsBytes(name, rates, vendor), name, rates, vendor)
  {
    var b := StringsBytes(name, rates, vendor);
    Put16(b, 0, 13);
    Put16(b, 2, 0);
    PutText(b, 4, name);
    PutText(b, 68, rates);
    PutText(b, 132, vendor);
    PutText(b, 196, []);
    PutText(b, 260, []);
    PutText(b, 324, []);
    PutText(b, 388, []);
    EmptyStrings(b, 196);
  }

  /** A dynamic port owns no map. */
  ghost predicate PortLaid(b: Bytes, t: nat, k: nat, flags: nat, p: Port) {
    && |b| == 20 && Has16(b, 0, t) && Has16(b, 2, k) && Has16(b, 4, 0) && Has16(b, 6, flags)
    && Has16(b, 8, 0) && Has16(b, 10, 0) && Has16(b, 12, p.clusters) && Has16(b, 14, p.baseCluster)
    && Has16(b, 16, if p.dynamic then 0 else p.maps) && Has16(b, 18, if p.dynamic then 0 else p.baseMap)
  }

  lemma {:induction false} PortIsLaid(t: nat, k: nat, flags: nat, p: Port, bounds: PortMapBounds)
    requires bounds.clusters == p.clusters && bounds.baseCluster == p.baseCluster
    requires bounds.maps == (if p.dynamic then 0 else p.maps) && bounds.baseMap == (if p.dynamic then 0 else p.baseMap)
    ensures PortLaid(StreamPortBytes(t, k, flags, bounds), t, k, flags, p)
  {
    var b := StreamPortBytes(t, k, flags, bounds);
    Put16(b, 0, t);
    Put16(b, 2, k);
    Put16(b, 4, 0);
    Put16(b, 6, flags);
    Put16(b, 8, 0);
    Put16(b, 10, 0);
    Put16(b, 12, bounds.clusters);
    Put16(b, 14, bounds.baseCluster);
    Put16(b, 16, bounds.maps);
    Put16(b, 18, bounds.baseMap);
  }

  /** One channel of MBLA, 500 ns of latency each way. */
  ghost predicate ClusterLaid(b: Bytes, k: nat, name: Bytes, signalType: nat) {
    && |b| == 90 && Has16(b, 0, 20) && Has16(b, 2, k) && HasText(b, 4, name) && Has16(b, 68, 0xFFFF)
    && Has16(b, 70, signalType) && Has16(b, 72, 0) && Has16(b, 74, 0) && Has32(b, 76, 500) && Has32(b, 80, 500)
    && Has16(b, 84, 1) && b[86] == 0x40 && b[87] == 0 && Has16(b, 88, 0)
  }

  lemma {:induction false} ClusterIsLaid(k: nat, name: Bytes, signalType: nat)
    ensures ClusterLaid(AudioClusterBytes(k, name, signalType), k, name, signalType)
  {
    var b := AudioClusterBytes(k, name, signalType);
    Put16(b, 0, 20);
    Put16(b, 2, k);
    PutText(b, 4, name);
    Put16(b, 68, 0xFFFF);
    Put16(b, 70, signalType);
    assert b[72] == 0 && b[73] == 0 && b[74] == 0 && b[75] == 0;
    Put16(b, 72, 0);
    Put16(b, 74, 0);
    Put32(b, 76, 500);
    Put32(b, 80, 500);
    Put16(b, 84, 1);
    Put16(b, 88, 0);
  }

  // ----- descriptors that carry a list

  ghost predicate ConfigurationLaid(b: Bytes, name: Bytes, nIn: nat, nOut: nat, nClk: nat) {
    && |b| == 106 && Has16(b, 0, 1) && Has16(b, 2, 0) && HasText(b, 4, name)
    && Has16(b, 68, 1) && Has16(b, 70, 8) && Has16(b, 72, 74)
    && Has16(b, 74, 2) && Has16(b, 76, 1) && Has16(b, 78, 5) && Has16(b, 80, nIn)
    && Has16(b, 82, 6) && Has16(b, 84, nOut) && Has16(b, 86, 9) && Has16(b, 88, 1)
    && Has16(b, 90, 36) && Has16(b, 92, 1) && Has16(b, 94, 10) && Has16(b, 96, nClk)
    && Has16(b, 98, 26) && Has16(b, 100, 1) && Has16(b, 102, 12) && Has16(b, 104, 1)
  }

  lemma {:induction false} CountPairAt(h: Bytes, counts: seq<(nat, nat)>, k: nat, t: nat, n: nat)
    requires k < |counts| && counts[k] == (t, n)
    ensures Has16(h + Flat(CountRecords(counts)), |h| + 4 * k, t)
    ensures Has16(h + Flat(CountRecords(counts)), |h| + 4 * k + 2, n)
  {
    var b, at := h + Flat(CountRecords(counts)), |h| + 4 * k;
    RecordAt(h, CountRecords(counts), 4, k);
    SliceOfSlice(b, at, 4, 0, 2);
    SliceOfSlice(b, at, 4, 2, 2);
    var record := Be16(t) + Be16(n);
    assert record[0..2] == Be16(t) && record[2..4] == Be16(n);
    Put16(b, at, t);
    Put16(b, at + 2, n);
  }

  lemma {:induction false} ConfigurationHeaderLaid(name: Bytes)
    ensures var h := ConfigurationHeader(name, 8);
            && Has16(h, 0, 1) && Has16(h, 2, 0) && HasText(h, 4, name)
            && Has16(h, 68, 1) && Has16(h, 70, 8) && Has16(h, 72, 74)
  {
    var h := ConfigurationHeader(name, 8);
    Put16(h, 0, 1);
    Put16(h, 2, 0);
    PutText(h, 4, name);
    Put16(h, 68, 1);
    Put16(h, 70, 8);
    Put16(h, 72, 74);
  }

  lemma {:induction false} ConfigurationIsLaid(nIn: nat, nOut: nat, nClk: nat, name: Bytes)
    ensures ConfigurationLaid(ConfigurationBytes(nIn, nOut, nClk, name), name, nIn, nOut, nClk)
  {
    var h, counts := ConfigurationHeader(name, 8), ConfigurationCounts(nIn, nOut, nClk);
    ConfigurationHeaderLaid(name);
    Behind(h, Flat(CountRecords(counts)));
    FlatLength(CountRecords(counts), 4);
    CountPairAt(h, counts, 0, 2, 1);
    CountPairAt(h, counts, 1, 5, nIn);
    CountPairAt(h, counts, 2, 6, nOut);
    CountPairAt(h, counts, 3, 9, 1);
    CountPairAt(h, counts, 4, 36, 1);
    CountPairAt(h, counts, 5, 10, nClk);
    CountPairAt(h, counts, 6, 26, 1);
    CountPairAt(h, counts, 7, 12, 1);
  }

  ghost predicate AudioUnitLaid(b: Bytes, name: Bytes, rates: seq<nat>, current: nat, nIn: nat, nOut: nat) {
    && |b| == 144 + 4 * |rates| && Has16(b, 0, 2) && Has16(b, 2, 0) && HasText(b, 4, name)
    && Has16(b, 68, 0xFFFF) && Has16(b, 70, 0) && Has16(b, 72, nIn) && Has16(b, 74, 0)
    && Has16(b, 76, nOut) && Has16(b, 78, 0) && HasZeros(b, 80, 56)
    && Has32(b, 136, current) && Has16(b, 140, 144) && Has16(b, 142, |rates|)
    && forall k :: 0 <= k < |rates| ==> Has32(b, 144 + 4 * k, rates[k])
  }

  lemma {:induction false} AudioUnitWords(name: Bytes, current: nat, nIn: nat, nOut: nat, count: nat)
    ensures var h := AudioUnitHeader(name, current, nIn, nOut, count);
            && h[0..2] == Be16(2) && h[2..4] == Be16(0) && h[68..70] == Be16(0xFFFF) && h[70..72] == Be16(0)
            && h[72..74] == Be16(nIn) && h[74..76] == Be16(0) && h[76..78] == Be16(nOut) && h[78..80] == Be16(0)
            && h[80..136] == Zeros(56) && h[136..140] == Word32(current)
            && h[140..142] == Be16(144) && h[142..144] == Be16(count)
  {
  }

  lemma {:induction false} AudioUnitHeaderLaid(name: Bytes, current: nat, nIn: nat, nOut: nat, count: nat)
    requires IsU32(current)
    ensures var h := AudioUnitHeader(name, current, nIn, nOut, count);
            && Has16(h, 0, 2) && Has16(h, 2, 0) && HasText(h, 4, name)
            && Has16(h, 68, 0xFFFF) && Has16(h, 70, 0) && Has16(h, 72, nIn) && Has16(h, 74, 0)
            && Has16(h, 76, nOut) && Has16(h, 78, 0) && HasZeros(h, 80, 56)
            && Has32(h, 136, current) && Has16(h, 140, 144) && Has16(h, 142, count)
  {
    var h := AudioUnitHeader(name, current, nIn, nOut, count);
    AudioUnitWords(name, current, nIn, nOut, count);
    Put16(h, 0, 2);
    Put16(h, 2, 0);
    PutText(h, 4, name);
    Put16(h, 68, 0xFFFF);
    Put16(h, 70, 0);
    Put16(h, 72, nIn);
    Put16(h, 74, 0);
    Put16(h, 76, nOut);
    Put16(h, 78, 0);
    PutZeros(h, 80, 56);
    Put32(h, 136, current);
    Put16(h, 140, 144);
    Put16(h, 142, count);
  }

  lemma {:induction false} AudioUnitIsLaid(rates: seq<nat>, current: nat, nIn: nat, nOut: nat, name: Bytes)
    requires AudioUnitBytes(rates, current, nIn, nOut, name).Ok?
    ensures AudioUnitLaid(AudioUnitBytes(rates, current, nIn, nOut, name).value, name, rates, current, nIn, nOut)
  {
    var h, records := AudioUnitHeader(name, current, nIn, nOut, |rates|), RateRecords(rates);
    AudioUnitHeaderLaid(name, current, nIn, nOut, |rates|);
    Behind(h, Flat(records));
    FlatLength(records, 4);
    forall k | 0 <= k < |rates| ensures Has32(h + Flat(records), 144 + 4 * k, rates[k]) {
      assert rates[k] in rates;
      RecordAt(h, records, 4, k);
      Put32(h + Flat(records), 144 + 4 * k, rates[k]);
    }
  }

  ghost predicate StreamLaid(b: Bytes, t: nat, k: nat, name: Bytes, flags: nat, formats: seq<nat>, buffer: nat) {
    && formats != [] && |b| == 138 + 8 * |formats| && Has16(b, 0, t) && Has16(b, 2, k) && HasText(b, 4, name)
    && Has16(b, 68, 0xFFFF) && Has16(b, 70, 0) && Has16(b, 72, flags) && Has64(b, 74, formats[0])
    && Has16(b, 82, 138) && Has16(b, 84, |formats|) && HasZeros(b, 86, 42) && Has32(b, 128, buffer)
    && Has16(b, 132, 138 + 8 * |formats|) && Has16(b, 134, 0) && Has16(b, 136, 0)
    && forall f :: 0 <= f < |formats| ==> Has64(b, 138 + 8 * f, formats[f])
  }

  lemma {:induction false} StreamStartLaid(t: nat, k: nat, name: Bytes, flags: nat, current: nat)
    ensures var h := StreamStart(t, k, name, flags, current);
            && Has16(h, 0, t) && Has16(h, 2, k) && HasText(h, 4, name)
            && Has16(h, 68, 0xFFFF) && Has16(h, 70, 0) && Has16(h, 72, flags) && Has64(h, 74, current)
  {
    var h := StreamStart(t, k, name, flags, current);
    Put16(h, 0, t);
    Put16(h, 2, k);
    PutText(h, 4, name);
    Put16(h, 68, 0xFFFF);
    Put16(h, 70, 0);
    Put16(h, 72, flags);
    Put64(h, 74, current);
  }

  lemma {:induction false} StreamRestLaid(count: nat, buffer: nat)
    requires IsU32(buffer)
    ensures var h := StreamRest(count, buffer);
            && Has16(h, 0, 138) && Has16(h, 2, count) && HasZeros(h, 4, 42) && Has32(h, 46, buffer)
            && Has16(h, 50, 138 + 8 * count) && Has16(h, 52, 0) && Has16(h, 54, 0)
  {
    var h := StreamRest(count, buffer);
    Put16(h, 0, 138);
    Put16(h, 2, count);
    PutZeros(h, 4, 40);
    Put16(h, 44, 0);
    Put32(h, 46, buffer);
    Put16(h, 50, 138 + 8 * count);
    Put16(h, 52, 0);
    Put16(h, 54, 0);
  }

  /** The fields of the second half, seen from the start. */
  lemma {:induction false} Shifted(start: Bytes, rest: Bytes, d: nat)
    requires d == |start|
    ensures forall at: nat, v: nat :: Has16(rest, at, v) ==> Has16(start + rest, d + at, v)
    ensures forall at: nat, v: nat :: Has32(rest, at, v) ==> Has32(start + rest, d + at, v)
    ensures forall at: nat, n: nat :: HasZeros(rest, at, n) ==> HasZeros(start + rest, d + at, n)
  {
    forall at: nat, v: nat | Has16(rest, at, v) ensures Has16(start + rest, d + at, v) {
    }
    forall at: nat, v: nat | Has32(rest, at, v) ensures Has32(start + rest, d + at, v) {
      assert Has16(start + rest, d + at, v / 65536) && Has16(start + rest, d + (at + 2), v);
    }
    forall at: nat, n: nat | HasZeros(rest, at, n) ensures HasZeros(start + rest, d + at, n) {
      forall i | d + at <= i < d + at + n ensures (start + rest)[i] == 0 {
        assert (start + rest)[i] == rest[i - d];
      }
    }
  }

  lemma {:induction false} StreamHeaderLaid(t: nat, k: nat, name: Bytes, flags: nat, current: nat, count: nat,
                                            buffer: nat)
    requires IsU32(buffer)
    ensures var h := StreamHeader(t, k, name, flags, current, count, buffer);
            && Has16(h, 0, t) && Has16(h, 2, k) && HasText(h, 4, name)
            && Has16(h, 68, 0xFFFF) && Has16(h, 70, 0) && Has16(h, 72, flags) && Has64(h, 74, current)
            && Has16(h, 82, 138) && Has16(h, 84, count) && HasZeros(h, 86, 42) && Has32(h, 128, buffer)
            && Has16(h, 132, 138 + 8 * count) && Has16(h, 134, 0) && Has16(h, 136, 0)
  {
    StreamStartLaid(t, k, name, flags, current);
    StreamRestLaid(count, buffer);
    Behind(StreamStart(t, k, name, flags, current), StreamRest(count, buffer));
    Shifted(StreamStart(t, k, name, flags, current), StreamRest(count, buffer), 82);
  }

  lemma {:induction false} FormatsLaid(h: Bytes, formats: seq<nat>)
    requires |h| == 138
    ensures |h + Flat(FormatRecords(formats))| == 138 + 8 * |formats|
    ensures forall f :: 0 <= f < |formats| ==> Has64(h + Flat(FormatRecords(formats)), 138 + 8 * f, formats[f])
  {
    var records := FormatRecords(formats);
    FlatLength(records, 8);
    forall f | 0 <= f < |formats| ensures Has64(h + Flat(records), 138 + 8 * f, formats[f]) {
      RecordAt(h, records, 8, f);
      Put64(h + Flat(records), 138 + 8 * f, formats[f]);
    }
  }

  lemma {:induction false} StreamIsLaid(t: nat, k: nat, name: Bytes, flags: nat, formats: seq<nat>, buffer: nat)
    requires StreamBytes(t, k, name, flags, formats, buffer).Ok?
    ensures StreamLaid(StreamBytes(t, k, name, flags, formats, buffer).value, t, k, name, flags, formats, buffer)
  {
    var h := StreamHeader(t, k, name, flags, formats[0], |formats|, buffer);
    StreamHeaderLaid(t, k, name, flags, formats[0], |formats|, buffer);
    Behind(h, Flat(FormatRecords(formats)));
    FormatsLaid(h, formats);
  }

  /** The domain starts on source 0 and lists its sources by their own indices. */
  ghost predicate ClockDomainLaid(b: Bytes, name: Bytes, n: nat) {
    && |b| == 76 + 2 * n && Has16(b, 0, 36) && Has16(b, 2, 0) && HasText(b, 4, name) && Has16(b, 68, 0xFFFF)
    && Has16(b, 70, 0) && Has16(b, 72, 76) && Has16(b, 74, n)
    && forall k :: 0 <= k < n ==> Has16(b, 76 + 2 * k, k)
  }

  lemma {:induction false} ClockDomainHeaderLaid(name: Bytes, n: nat)
    ensures var h := ClockDomainHeader(name, n);
            && Has16(h, 0, 36) && Has16(h, 2, 0) && HasText(h, 4, name) && Has16(h, 68, 0xFFFF)
            && Has16(h, 70, 0) && Has16(h, 72, 76) && Has16(h, 74, n)
  {
    var h := ClockDomainHeader(name, n);
    Put16(h, 0, 36);
    Put16(h, 2, 0);
    PutText(h, 4, name);
    Put16(h, 68, 0xFFFF);
    Put16(h, 70, 0);
    Put16(h, 72, 76);
    Put16(h, 74, n);
  }

  lemma {:induction false} ClockDomainIsLaid(n: nat, name: Bytes)
    ensures ClockDomainLaid(ClockDomainBytes(n, name), name, n)
  {
    var h, records := ClockDomainHeader(name, n), SourceRecords(n);
    ClockDomainHeaderLaid(name, n);
    Behind(h, Flat(records));
    FlatLength(records, 2);
    forall k | 0 <= k < n ensures Has16(h + Flat(records), 76 + 2 * k, k) {
      RecordAt(h, records, 2, k);
      Put16(h + Flat(records), 76 + 2 * k, k);
    }
  }

  ghost predicate MapLaid(b: Bytes, k: nat, rows: seq<MapRow>) {
    && |b| == 8 + 8 * |rows| && Has16(b, 0, 23) && Has16(b, 2, k) && Has16(b, 4, 8) && Has16(b, 6, |rows|)
    && forall r :: 0 <= r < |rows| ==> RowLaid(b, 8 + 8 * r, rows[r])
  }

  ghost predicate RowLaid(b: Bytes, at: nat, row: MapRow) {
    && Has16(b, at, row.stream) && Has16(b, at + 2, row.streamChannel)
    && Has16(b, at + 4, row.clusterOffset) && Has16(b, at + 6, row.clusterChannel)
  }

  lemma {:induction false} RowIsLaid(b: Bytes, at: nat, row: MapRow)
    requires at + 8 <= |b| && b[at..at + 8] == RowBytes(row)
    ensures RowLaid(b, at, row)
  {
    var f := RowBytes(row);
    SliceOfSlice(b, at, 8, 0, 2);
    SliceOfSlice(b, at, 8, 2, 2);
    SliceOfSlice(b, at, 8, 4, 2);
    SliceOfSlice(b, at, 8, 6, 2);
    assert f[0..2] == Be16(row.stream) && f[2..4] == Be16(row.streamChannel);
    assert f[4..6] == Be16(row.clusterOffset) && f[6..8] == Be16(row.clusterChannel);
    Put16(b, at, row.stream);
    Put16(b, at + 2, row.streamChannel);
    Put16(b, at + 4, row.clusterOffset);
    Put16(b, at + 6, row.clusterChannel);
  }

  lemma {:induction false} MapHeaderLaid(k: nat, n: nat)
    ensures var h := AudioMapHeader(k, n); Has16(h, 0, 23) && Has16(h, 2, k) && Has16(h, 4, 8) && Has16(h, 6, n)
  {
    var h := AudioMapHeader(k, n);
    Put16(h, 0, 23);
    Put16(h, 2, k);
    Put16(h, 4, 8);
    Put16(h, 6, n);
  }

  lemma {:induction false} MapIsLaid(k: nat, rows: seq<MapRow>)
    ensures MapLaid(AudioMapBytes(k, rows), k, rows)
  {
    var h, records := AudioMapHeader(k, |rows|), RowRecords(rows);
    MapHeaderLaid(k, |rows|);
    Behind(h, Flat(records));
    FlatLength(records, 8);
    forall r | 0 <= r < |rows| ensures RowLaid(h + Flat(records), 8 + 8 * r, rows[r]) {
      RecordAt(h, records, 8, r);
      RowIsLaid(h + Flat(records), 8 + 8 * r, rows[r]);
    }
  }

  // ----- refusals

  /** A rate or a buffer is packed exactly when it fits 32 bits. */
  lemma {:induction false} WordsFit(v: nat)
    ensures IsU32(v) <==> v <= 4294967295
    ensures Be32(v).Ok? <==> v <= 4294967295
  {
  }

  /** Bit 13 of a word. */
  lemma {:induction false} TimingBit(hi: nat, timing: bool, lo: nat)
    requires lo < 8192
    ensures TimingFieldValid(hi * 16384 + (if timing then 8192 else 0) + lo) <==> timing
  {
    var t := 2 * hi + if timing then 1 else 0;
    assert hi * 16384 + (if timing then 8192 else 0) + lo == t * 8192 + lo;
    assert (t * 8192 + lo) / 8192 == t;
  }

  /** A stream is refused exactly without formats, with a buffer past 32 bits, or with bit 13 of its flags set. */
  lemma {:induction false} StreamRefused(t: nat, k: nat, name: Bytes, hi: nat, timing: bool, lo: nat, formats: seq<nat>,
                                         buffer: nat)
    requires lo < 8192
    ensures StreamBytes(t, k, name, hi * 16384 + (if timing then 8192 else 0) + lo, formats, buffer).Ok? <==>
            formats != [] && buffer <= 4294967295 && !timing
  {
    TimingBit(hi, timing, lo);
  }
}
