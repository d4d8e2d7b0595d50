/**
 Descriptor octets, clause 7.2 of IEEE 1722.1-2021 (avdecc/aem_descriptors.py).

 Each function is one descriptor's bytes; a constructor that loops over a list is also a method
 accumulating the bytes as the source does. A failure is a `struct.error`, an `IndexError` or an
 `AssertionError` of the constructor.
 */
module Descriptors {
  import opened Octets
  import opened Wrappers

  const ENTITY: nat := 0x0000
  const CONFIGURATION: nat := 0x0001
  const AUDIO_UNIT: nat := 0x0002
  const STREAM_INPUT: nat := 0x0005
  const STREAM_OUTPUT: nat := 0x0006
  const AVB_INTERFACE: nat := 0x0009
  const CLOCK_SOURCE: nat := 0x000A
  const LOCALE: nat := 0x000C
  const STRINGS: nat := 0x000D
  const STREAM_PORT_INPUT: nat := 0x000E
  const STREAM_PORT_OUTPUT: nat := 0x000F
  const AUDIO_CLUSTER: nat := 0x0014
  const AUDIO_MAP: nat := 0x0017
  const CONTROL: nat := 0x001A
  const CLOCK_DOMAIN: nat := 0x0024

  const NO_STRING: nat := 0xFFFF
  const AEM_DESCRIPTOR_MAX_BYTES: nat := 508
  const STREAM_FORMATS_OFFSET: nat := 138
  const STREAM_FORMAT_BYTES: nat := 8
  const MAX_STREAM_FORMATS: nat := (AEM_DESCRIPTOR_MAX_BYTES - STREAM_FORMATS_OFFSET) / STREAM_FORMAT_BYTES

  datatype EntityText = EntityText(name: Bytes, firmware: Bytes, group: Bytes, serial: Bytes, vendor: Bytes)

  /** The AVB_INTERFACE clock attributes; a log interval is already a masked signed octet. */
  datatype Gptp = Gptp(priority1: byte, clockClass: byte, variance: nat, accuracy: byte, priority2: byte,
                       domain: byte, logSync: byte, logAnnounce: byte, logPdelay: byte, portNumber: nat)

  datatype MapRow = MapRow(stream: nat, streamChannel: nat, clusterOffset: nat, clusterChannel: nat)

  /** The four fields of clause 7.2.13 that say what a STREAM_PORT owns. */
  datatype PortMapBounds = PortMapBounds(clusters: nat, baseCluster: nat, maps: nat, baseMap: nat)

  /** The four octets every descriptor opens with. */
  function Head(dtype: nat, index: nat): (b: Bytes)
    ensures |b| == 4
  {
    Be16(dtype) + Be16(index)
  }

  /** The body starts with its own type and index, which is how a reader recognises it. */
  ghost predicate NamesItself(b: Bytes, dtype: nat, index: nat) {
    |b| >= 4 && b[..4] == Head(dtype, index)
  }

  lemma {:induction false} NamesItselfReads(b: Bytes, dtype: nat, index: nat)
    requires NamesItself(b, dtype, index)
    ensures U16(b, 0) == Mask16(dtype) && U16(b, 2) == Mask16(index)
  {
    Be16Reads(dtype);
    Be16Reads(index);
    assert b[0..2] == b[..4][..2] == Be16(dtype) && b[2..4] == b[..4][2..] == Be16(index);
    FieldIs16(b, 0, Be16(dtype));
    FieldIs16(b, 2, Be16(index));
  }

  // ----- fixed-length descriptors

  function EntityBytes(e: EntityText): (b: Bytes)
    ensures |b| == 312 && NamesItself(b, ENTITY, 0)
    ensures b[48..112] == Cstr(e.name) && b[180..244] == Cstr(e.group)
  {
    Head(ENTITY, 0)
    + Zeros(8) + Zeros(8) + Zeros(4)
    + Be16(0) + Be16(0) + Be16(0) + Be16(0)
    + Zeros(4) + Zeros(4) + Zeros(8)
    + Cstr(e.name)
    + Be16(2) + Be16(0)
    + Cstr(e.firmware) + Cstr(e.group) + Cstr(e.serial)
    + Be16(1) + Be16(0)
  }

  function AvbInterfaceBytes(gp: Gptp, name: Bytes): (b: Bytes)
    ensures |b| == 102 && NamesItself(b, AVB_INTERFACE, 0) && b[4..68] == Cstr(name)
  {
    Head(AVB_INTERFACE, 0) + Cstr(name) + Be16(NO_STRING)
    + Zeros(6) + Be16(7) + Zeros(8)
    + [gp.priority1, gp.clockClass] + Be16(gp.variance)
    + [gp.accuracy, gp.priority2, gp.domain]
    + [gp.logSync, gp.logAnnounce, gp.logPdelay]
    + Be16(gp.portNumber) + Be16(0) + Be16(0)
  }

  function ClockSourceBytes(index: nat, name: Bytes, csType: nat, locType: nat, locIndex: nat): (b: Bytes)
    ensures |b| == 86 && NamesItself(b, CLOCK_SOURCE, index) && b[4..68] == Cstr(name)
  {
    Head(CLOCK_SOURCE, index) + Cstr(name) + Be16(NO_STRING)
    + Be16(2) + Be16(csType) + Zeros(8) + Be16(locType) + Be16(locIndex)
  }

  function ControlIdentifyBytes(name: Bytes): (b: Bytes)
    ensures |b| == 113 && NamesItself(b, CONTROL, 0) && b[4..68] == Cstr(name)
  {
    Head(CONTROL, 0) + Cstr(name) + Be16(NO_STRING)
    + Word32(500) + Word32(500) + Be16(0) + Be16(1)
    + Be64(0x90E0_F000_0000_0001) + Word32(0) + Be16(104) + Be16(1)
    + Be16(NO_STRING) + Be16(0) + Be16(0)
    + [0, 255, 255, 0, 0] + Be16(0) + Be16(NO_STRING)
  }

  function LocaleBytes(identifier: Bytes): (b: Bytes)
    ensures |b| == 72 && NamesItself(b, LOCALE, 0)
  {
    Head(LOCALE, 0) + Cstr(identifier) + Be16(1) + Be16(0)
  }

  function StringsBytes(s0: Bytes, s1: Bytes, s2: Bytes): (b: Bytes)
    ensures |b| == 452 && NamesItself(b, STRINGS, 0)
  {
    Head(STRINGS, 0) + Cstr(s0) + Cstr(s1) + Cstr(s2) + Cstr([]) + Cstr([]) + Cstr([]) + Cstr([])
  }

  function StreamPortBytes(dtype: nat, index: nat, flags: nat, bounds: PortMapBounds): (b: Bytes)
    ensures |b| == 20 && NamesItself(b, dtype, index)
  {
    Head(dtype, index) + Be16(0) + Be16(flags) + Be16(0) + Be16(0)
    + Be16(bounds.clusters) + Be16(bounds.baseCluster) + Be16(bounds.maps) + Be16(bounds.baseMap)
  }

  function AudioClusterBytes(index: nat, name: Bytes, signalType: nat): (b: Bytes)
    ensures |b| == 90 && NamesItself(b, AUDIO_CLUSTER, index) && b[4..68] == Cstr(name)
  {
    Head(AUDIO_CLUSTER, index) + Cstr(name) + Be16(NO_STRING)
    + Be16(signalType) + Be16(0) + Be16(0) + Word32(500) + Word32(500)
    + Be16(1) + [0x40] + [0] + Be16(0)
  }

  // ----- descriptors that carry a list

  function ConfigurationCounts(nIn: nat, nOut: nat, nClk: nat): seq<(nat, nat)> {
    [(AUDIO_UNIT, 1), (STREAM_INPUT, nIn), (STREAM_OUTPUT, nOut), (AVB_INTERFACE, 1),
     (CLOCK_DOMAIN, 1), (CLOCK_SOURCE, nClk), (CONTROL, 1), (LOCALE, 1)]
  }

  function CountRecords(counts: seq<(nat, nat)>): (r: seq<Bytes>)
    ensures Uniform(r, 4)
  {
    seq(|counts|, i requires 0 <= i < |counts| => Be16(counts[i].0) + Be16(counts[i].1))
  }

  function ConfigurationHeader(name: Bytes, count: nat): (b: Bytes)
    ensures |b| == 74 && NamesItself(b, CONFIGURATION, 0) && b[4..68] == Cstr(name)
  {
    Head(CONFIGURATION, 0) + Cstr(name) + Be16(1) + Be16(count) + Be16(74)
  }

  function ConfigurationBytes(nIn: nat, nOut: nat, nClk: nat, name: Bytes): Bytes {
    ConfigurationHeader(name, 8) + Flat(CountRecords(ConfigurationCounts(nIn, nOut, nClk)))
  }

  method DConfiguration(nIn: nat, nOut: nat, nClk: nat, name: Bytes) returns (b: Bytes)
    ensures b == ConfigurationBytes(nIn, nOut, nClk, name)
  {
    var counts := ConfigurationCounts(nIn, nOut, nClk);
    b := ConfigurationHeader(name, |counts|);
    for k := 0 to |counts|
      invariant b == ConfigurationHeader(name, 8) + Flat(CountRecords(counts)[..k])
    {
      assert CountRecords(counts)[..k + 1][..k] == CountRecords(counts)[..k];
      b := b + (Be16(counts[k].0) + Be16(counts[k].1));
    }
    assert CountRecords(counts)[..|counts|] == CountRecords(counts);
  }

  function RateRecords(rates: seq<nat>): (r: seq<Bytes>)
    ensures Uniform(r, 4)
  {
    seq(|rates|, i requires 0 <= i < |rates| => Word32(rates[i]))
  }

  predicate AllU32(vs: seq<nat>) {
    forall v :: v in vs ==> IsU32(v)
  }

  function AudioUnitHeader(name: Bytes, current: nat, nIn: nat, nOut: nat, count: nat): (b: Bytes)
    ensures |b| == 144 && NamesItself(b, AUDIO_UNIT, 0) && b[4..68] == Cstr(name)
  {
    Head(AUDIO_UNIT, 0) + Cstr(name) + Be16(NO_STRING) + Be16(0)
    + Be16(nIn) + Be16(0) + Be16(nOut) + Be16(0)
    + Zeros(56) + Word32(current) + Be16(144) + Be16(count)
  }

  function AudioUnitBytes(rates: seq<nat>, current: nat, nIn: nat, nOut: nat, name: Bytes): Result<Bytes> {
    if IsU32(current) && AllU32(rates) then
      Ok(AudioUnitHeader(name, current, nIn, nOut, |rates|) + Flat(RateRecords(rates)))
    else Err
  }

  method DAudioUnit(rates: seq<nat>, current: nat, nIn: nat, nOut: nat, name: Bytes) returns (res: Result<Bytes>)
    ensures res == AudioUnitBytes(rates, current, nIn, nOut, name)
  {
    if !IsU32(current) {
      return Err;
    }
    var b := AudioUnitHeader(name, current, nIn, nOut, |rates|);
    for k := 0 to |rates|
      invariant b == AudioUnitHeader(name, current, nIn, nOut, |rates|) + Flat(RateRecords(rates)[..k])
      invariant AllU32(rates[..k])
    {
      assert RateRecords(rates)[..k + 1][..k] == RateRecords(rates)[..k];
      assert rates[..k + 1] == rates[..k] + [rates[k]];
      var r := Be32(rates[k]);
      if r.Err? {
        assert rates[k] in rates;
        return Err;
      }
      b := b + r.value;
    }
    assert RateRecords(rates)[..|rates|] == RateRecords(rates) && rates[..|rates|] == rates;
    return Ok(b);
  }

  function FormatRecords(formats: seq<nat>): (r: seq<Bytes>)
    ensures Uniform(r, 8)
  {
    seq(|formats|, i requires 0 <= i < |formats| => Be64(formats[i]))
  }

  function StreamStart(dtype: nat, index: nat, name: Bytes, flags: nat, current: nat): (b: Bytes)
    ensures |b| == 82 && NamesItself(b, dtype, index) && b[4..68] == Cstr(name)
  {
    Head(dtype, index) + Cstr(name) + Be16(NO_STRING) + Be16(0) + Be16(flags) + Be64(current)
  }

  /** From formats_offset to timing; redundant_offset points just past the formats. */
  function StreamRest(count: nat, buffer: nat): (b: Bytes)
    ensures |b| == 56
  {
    Be16(STREAM_FORMATS_OFFSET) + Be16(count) + Zeros(40) + Be16(0) + Word32(buffer)
    + Be16(138 + 8 * count) + Be16(0) + Be16(0)
  }

  function StreamHeader(dtype: nat, index: nat, name: Bytes, flags: nat, current: nat, count: nat,
                        buffer: nat): (b: Bytes)
    ensures |b| == STREAM_FORMATS_OFFSET && NamesItself(b, dtype, index) && b[4..68] == Cstr(name)
  {
    var start := StreamStart(dtype, index, name, flags, current);
    assert (start + StreamRest(count, buffer))[4..68] == start[4..68];
    start + StreamRest(count, buffer)
  }

  /** `flags & 0x2000`: TIMING_FIELD_VALID, which this model has no TIMING descriptor for. */
  predicate TimingFieldValid(flags: nat) {
    flags / 0x2000 % 2 == 1
  }

  function StreamBytes(dtype: nat, index: nat, name: Bytes, flags: nat, formats: seq<nat>, buffer: nat): Result<Bytes> {
    if formats == [] || !IsU32(buffer) || TimingFieldValid(flags) then Err
    else Ok(StreamHeader(dtype, index, name, flags, formats[0], |formats|, buffer) + Flat(FormatRecords(formats)))
  }

  method DStream(dtype: nat, index: nat, name: Bytes, flags: nat, formats: seq<nat>, buffer: nat)
    returns (res: Result<Bytes>)
    ensures res == StreamBytes(dtype, index, name, flags, formats, buffer)
  {
    if formats == [] || !IsU32(buffer) || TimingFieldValid(flags) {
      return Err;
    }
    ghost var header := StreamHeader(dtype, index, name, flags, formats[0], |formats|, buffer);
    var b := StreamHeader(dtype, index, name, flags, formats[0], |formats|, buffer);
    for k := 0 to |formats|
      invariant b == header + Flat(FormatRecords(formats)[..k])
    {
      assert FormatRecords(formats)[..k + 1][..k] == FormatRecords(formats)[..k];
      b := b + Be64(formats[k]);
    }
    assert FormatRecords(formats)[..|formats|] == FormatRecords(formats);
    return Ok(b);
  }

  function SourceRecords(n: nat): (r: seq<Bytes>)
    ensures Uniform(r, 2)
  {
    seq(n, i requires 0 <= i < n => Be16(i))
  }

  function ClockDomainHeader(name: Bytes, count: nat): (b: Bytes)
    ensures |b| == 76 && NamesItself(b, CLOCK_DOMAIN, 0) && b[4..68] == Cstr(name)
  {
    Head(CLOCK_DOMAIN, 0) + Cstr(name) + Be16(NO_STRING) + Be16(0) + Be16(76) + Be16(count)
  }

  function ClockDomainBytes(n: nat, name: Bytes): Bytes {
    ClockDomainHeader(name, n) + Flat(SourceRecords(n))
  }

  method DClockDomain(n: nat, name: Bytes) returns (b: Bytes)
    ensures b == ClockDomainBytes(n, name)
  {
    b := ClockDomainHeader(name, n);
    for s := 0 to n
      invariant b == ClockDomainHeader(name, n) + Flat(SourceRecords(n)[..s])
    {
      assert SourceRecords(n)[..s + 1][..s] == SourceRecords(n)[..s];
      b := b + Be16(s);
    }
    assert SourceRecords(n)[..n] == SourceRecords(n);
  }

  function RowBytes(row: MapRow): (b: Bytes)
    ensures |b| == 8
  {
    Be16(row.stream) + Be16(row.streamChannel) + Be16(row.clusterOffset) + Be16(row.clusterChannel)
  }

  function RowRecords(rows: seq<MapRow>): (r: seq<Bytes>)
    ensures Uniform(r, 8)
  {
    seq(|rows|, i requires 0 <= i < |rows| => RowBytes(rows[i]))
  }

  function AudioMapHeader(index: nat, count: nat): (b: Bytes)
    ensures |b| == 8 && NamesItself(b, AUDIO_MAP, index)
  {
    Head(AUDIO_MAP, index) + Be16(8) + Be16(count)
  }

  function AudioMapBytes(index: nat, rows: seq<MapRow>): Bytes {
    AudioMapHeader(index, |rows|) + Flat(RowRecords(rows))
  }

  method DAudioMap(index: nat, rows: seq<MapRow>) returns (b: Bytes)
    ensures b == AudioMapBytes(index, rows)
  {
    b := AudioMapHeader(index, |rows|);
    for k := 0 to |rows|
      invariant b == AudioMapHeader(index, |rows|) + Flat(RowRecords(rows)[..k])
    {
      assert RowRecords(rows)[..k + 1][..k] == RowRecords(rows)[..k];
      b := b + RowBytes(rows[k]);
    }
    assert RowRecords(rows)[..|rows|] == RowRecords(rows);
  }
}
