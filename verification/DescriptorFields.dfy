/**
 The independent decoder of clause 7.2 fields (scripts/audit_pp_descriptors.py, `uint` and
 `descriptor_fields`), and its round trips with the constructors.
 */
module DescriptorFields {
  import opened Descriptors
  import opened Octets
  import opened Sequences
  import opened Wrappers

  datatype Fields =
    | EntityFields(entityId: nat, modelId: nat, capabilities: nat, talkerSources: nat, talkerCaps: nat,
                   listenerSinks: nat, listenerCaps: nat, configurations: nat, currentConfig: nat)
    | ConfigurationFields(offset: nat, count: nat, counts: seq<(nat, nat)>)
    | AudioUnitFields(offset: nat, count: nat, currentRate: nat, rates: seq<nat>,
                      inputPorts: (nat, nat), outputPorts: (nat, nat))
    | StreamFields(offset: nat, count: nat, flags: nat, currentFormat: nat, formats: seq<nat>, bufferNs: nat,
                   redundantOffset: nat, redundantCount: nat, timing: nat)
    | AvbInterfaceFields(portNumber: nat, mac: Bytes, clockIdentity: Bytes, controls: nat)
    | ClockSourceFields(sourceType: nat, locationType: nat, locationIndex: nat)
    | StreamPortFields(clusters: nat, baseCluster: nat, maps: nat, baseMap: nat)
    | AudioClusterFields(channelCount: nat)
    | AudioMapFields(offset: nat, count: nat, mappings: seq<MapRow>)
    | ControlFields(controlType: nat, resetTime: nat, valuesOffset: nat)
    | ClockDomainFields(offset: nat, count: nat, sources: seq<nat>)
    | NoFields

  // ----- reading one field, refusing a truncated one

  function Uint16(data: Bytes, at: nat): Result<nat> {
    if at + 2 <= |data| then Ok(U16(data, at)) else Err
  }

  function Uint32(data: Bytes, at: nat): Result<nat> {
    if at + 4 <= |data| then Ok(U32(data, at)) else Err
  }

  function Uint64(data: Bytes, at: nat): Result<nat> {
    if at + 8 <= |data| then Ok(U64(data, at)) else Err
  }

  /** `data[from:to]`, which Python clamps to the data. */
  function Slice(data: Bytes, from: nat, to: nat): Bytes
    requires from <= to
  {
    if from >= |data| then [] else if to >= |data| then data[from..] else data[from..to]
  }

  /** The equal-width records of a list field, in order. */
  function Records(data: Bytes, at: nat, count: nat, w: nat): (r: Result<seq<Bytes>>)
    ensures r.Ok? ==> |r.value| == count && Uniform(r.value, w)
  {
    if count == 0 then Ok([])
    else
      var rest :- Records(data, at, count - 1, w);
      var from := at + w * (count - 1);
      if from + w <= |data| then Ok(rest + [data[from..from + w]]) else Err
  }

  function Words16(r: seq<Bytes>): (v: seq<nat>)
    requires Uniform(r, 2)
  {
    seq(|r|, i requires 0 <= i < |r| => U16(r[i], 0))
  }

  function Words32(r: seq<Bytes>): seq<nat>
    requires Uniform(r, 4)
  {
    seq(|r|, i requires 0 <= i < |r| => U32(r[i], 0))
  }

  function Words64(r: seq<Bytes>): seq<nat>
    requires Uniform(r, 8)
  {
    seq(|r|, i requires 0 <= i < |r| => U64(r[i], 0))
  }

  function Pairs(r: seq<Bytes>): seq<(nat, nat)>
    requires Uniform(r, 4)
  {
    seq(|r|, i requires 0 <= i < |r| => (U16(r[i], 0), U16(r[i], 2)))
  }

  function Rows(r: seq<Bytes>): seq<MapRow>
    requires Uniform(r, 8)
  {
    seq(|r|, i requires 0 <= i < |r| => MapRow(U16(r[i], 0), U16(r[i], 2), U16(r[i], 4), U16(r[i], 6)))
  }

  // ----- one decoder per descriptor type

  function EntityOf(data: Bytes): Result<Fields> {
    var eid :- Uint64(data, 4);
    var mid :- Uint64(data, 12);
    var caps :- Uint32(data, 20);
    var ts :- Uint16(data, 24);
    var tc :- Uint16(data, 26);
    var ls :- Uint16(data, 28);
    var lc :- Uint16(data, 30);
    var configs :- Uint16(data, 308);
    var current :- Uint16(data, 310);
    Ok(EntityFields(eid, mid, caps, ts, tc, ls, lc, configs, current))
  }

  function ConfigurationOf(data: Bytes): Result<Fields> {
    var offset :- Uint16(data, 72);
    var count :- Uint16(data, 70);
    var r :- Records(data, offset, count, 4);
    Ok(ConfigurationFields(offset, count, Pairs(r)))
  }

  function AudioUnitOf(data: Bytes): Result<Fields> {
    var offset :- Uint16(data, 140);
    var count :- Uint16(data, 142);
    var current :- Uint32(data, 136);
    var r :- Records(data, offset, count, 4);
    var i0 :- Uint16(data, 72);
    var i1 :- Uint16(data, 74);
    var o0 :- Uint16(data, 76);
    var o1 :- Uint16(data, 78);
    Ok(AudioUnitFields(offset, count, current, Words32(r), (i0, i1), (o0, o1)))
  }

  function StreamOf(data: Bytes): Result<Fields> {
    var offset :- Uint16(data, 82);
    var count :- Uint16(data, 84);
    var flags :- Uint16(data, 72);
    var current :- Uint64(data, 74);
    var r :- Records(data, offset, count, 8);
    var buffer :- Uint32(data, 128);
    var redundant :- Uint16(data, 132);
    var rcount :- Uint16(data, 134);
    var timing :- Uint16(data, 136);
    Ok(StreamFields(offset, count, flags, current, Words64(r), buffer, redundant, rcount, timing))
  }

  function AvbInterfaceOf(data: Bytes): Result<Fields> {
    var port :- Uint16(data, 96);
    var controls :- Uint16(data, 98);
    Ok(AvbInterfaceFields(port, Slice(data, 70, 76), Slice(data, 78, 86), controls))
  }

  function ClockSourceOf(data: Bytes): Result<Fields> {
    var st :- Uint16(data, 72);
    var lt :- Uint16(data, 82);
    var li :- Uint16(data, 84);
    Ok(ClockSourceFields(st, lt, li))
  }

  function StreamPortOf(data: Bytes): Result<Fields> {
    var clusters :- Uint16(data, 12);
    var base :- Uint16(data, 14);
    var maps :- Uint16(data, 16);
    var baseMap :- Uint16(data, 18);
    Ok(StreamPortFields(clusters, base, maps, baseMap))
  }

  function AudioMapOf(data: Bytes): Result<Fields> {
    var offset :- Uint16(data, 4);
    var count :- Uint16(data, 6);
    var r :- Records(data, offset, count, 8);
    Ok(AudioMapFields(offset, count, Rows(r)))
  }

  function ControlOf(data: Bytes): Result<Fields> {
    var ct :- Uint64(data, 82);
    var rt :- Uint32(data, 90);
    var vo :- Uint16(data, 94);
    Ok(ControlFields(ct, rt, vo))
  }

  function ClockDomainOf(data: Bytes): Result<Fields> {
    var offset :- Uint16(data, 72);
    var count :- Uint16(data, 74);
    var r :- Records(data, offset, count, 2);
    Ok(ClockDomainFields(offset, count, Words16(r)))
  }

  function DescriptorFieldsOf(dtype: nat, data: Bytes): Result<Fields> {
    if dtype == 0 then EntityOf(data)
    else if dtype == 1 then ConfigurationOf(data)
    else if dtype == 2 then AudioUnitOf(data)
    else if dtype == 5 || dtype == 6 then StreamOf(data)
    else if dtype == 9 then AvbInterfaceOf(data)
    else if dtype == 10 then ClockSourceOf(data)
    else if dtype == 14 || dtype == 15 then StreamPortOf(data)
    else if dtype == 20 then (var c :- Uint16(data, 84); Ok(AudioClusterFields(c)))
    else if dtype == 23 then AudioMapOf(data)
    else if dtype == 26 then ControlOf(data)
    else if dtype == 36 then ClockDomainOf(data)
    else Ok(NoFields)
  }

  // ----- round trips

  /** Reading n records back from behind a header gives the first n that were written. */
  lemma {:induction false} RecordsRoundTrip(header: Bytes, records: seq<Bytes>, w: nat, n: nat)
    requires Uniform(records, w) && n <= |records|
    ensures Records(header + Flat(records), |header|, n, w) == Ok(records[..n])
  {
    if n > 0 {
      var data := header + Flat(records);
      var from := |header| + w * (n - 1);
      RecordsRoundTrip(header, records, w, n - 1);
      FlatAt(records, w, n - 1);
      assert data[from..from + w] == Flat(records)[w * (n - 1)..w * (n - 1) + w];
      assert records[..n] == records[..n - 1] + [records[n - 1]];
    }
  }

  /** A field that lies inside the header is the header's own. */
  lemma {:induction false} HeaderFields(header: Bytes, tail: Bytes)
    ensures forall at: nat :: at + 2 <= |header| ==> Uint16(header + tail, at) == Ok(U16(header, at))
    ensures forall at: nat :: at + 4 <= |header| ==> Uint32(header + tail, at) == Ok(U32(header, at))
    ensures forall at: nat :: at + 8 <= |header| ==> Uint64(header + tail, at) == Ok(U64(header, at))
  {
  }

  function Masked64(vs: seq<nat>): seq<nat> {
    seq(|vs|, i requires 0 <= i < |vs| => Mask64(vs[i]))
  }

  function MaskedRow(row: MapRow): MapRow {
    MapRow(Mask16(row.stream), Mask16(row.streamChannel), Mask16(row.clusterOffset), Mask16(row.clusterChannel))
  }

  function MaskedRows(rows: seq<MapRow>): seq<MapRow> {
    seq(|rows|, i requires 0 <= i < |rows| => MaskedRow(rows[i]))
  }

  lemma {:induction false} StreamStartFields(dtype: nat, index: nat, name: Bytes, flags: nat, current: nat)
    ensures var h := StreamStart(dtype, index, name, flags, current);
            U16(h, 72) == Mask16(flags) && U64(h, 74) == Mask64(current)
  {
    var h := StreamStart(dtype, index, name, flags, current);
    assert h[72..74] == Be16(flags) && h[74..82] == Be64(current);
    FieldIs16(h, 72, Be16(flags));
    FieldIs64(h, 74, Be64(current));
    Be16Reads(flags);
    Be64Reads(current);
  }

  lemma {:induction false} StreamRestFields(count: nat, buffer: nat)
    requires IsU32(buffer)
    ensures var h := StreamRest(count, buffer);
            && U16(h, 0) == 138 && U16(h, 2) == Mask16(count) && U32(h, 46) == buffer
            && U16(h, 50) == Mask16(138 + 8 * count) && U16(h, 52) == 0 && U16(h, 54) == 0
  {
    var h, past := StreamRest(count, buffer), 138 + 8 * count;
    assert h[0..2] == Be16(138) && h[2..4] == Be16(count) && h[46..50] == Word32(buffer);
    assert h[50..52] == Be16(past) && h[52..54] == Be16(0) && h[54..] == Be16(0);
    FieldIs16(h, 0, Be16(138));
    FieldIs16(h, 2, Be16(count));
    FieldIs32(h, 46, Word32(buffer));
    FieldIs16(h, 50, Be16(past));
    FieldIs16(h, 52, Be16(0));
    FieldIs16(h, 54, Be16(0));
    Be16Reads(count);
    Be32Reads(buffer);
    Be16Reads(past);
  }

  /** The header's fields, read through the join of its two halves. */
  lemma {:induction false} JoinedStreamFields(start: Bytes, rest: Bytes)
    requires |start| == 82 && |rest| == 56
    ensures var h := start + rest;
            && U16(h, 72) == U16(start, 72) && U64(h, 74) == U64(start, 74)
            && U16(h, 82) == U16(rest, 0) && U16(h, 84) == U16(rest, 2) && U32(h, 128) == U32(rest, 46)
            && U16(h, 132) == U16(rest, 50) && U16(h, 134) == U16(rest, 52) && U16(h, 136) == U16(rest, 54)
  {
  }

  lemma {:induction false} FormatsRead(formats: seq<nat>, n: nat)
    requires n <= |formats|
    ensures Words64(FormatRecords(formats)[..n]) == Masked64(formats[..n])
  {
    forall i | 0 <= i < n ensures Words64(FormatRecords(formats)[..n])[i] == Masked64(formats[..n])[i] {
      Be64Reads(formats[i]);
    }
  }

  lemma {:induction false} StreamOfParts(h: Bytes, formats: seq<nat>)
    requires |h| == 138 && U16(h, 82) == 138 && U16(h, 84) <= |formats|
    ensures StreamOf(h + Flat(FormatRecords(formats))) ==
            Ok(StreamFields(138, U16(h, 84), U16(h, 72), U64(h, 74), Masked64(formats[..U16(h, 84)]),
                            U32(h, 128), U16(h, 132), U16(h, 134), U16(h, 136)))
  {
    var records := FormatRecords(formats);
    HeaderFields(h, Flat(records));
    RecordsRoundTrip(h, records, 8, U16(h, 84));
    FormatsRead(formats, U16(h, 84));
  }

  lemma {:induction false} StreamHeaderFields(dtype: nat, index: nat, name: Bytes, flags: nat, current: nat, count: nat,
                                              buffer: nat)
    requires IsU32(buffer)
    ensures var h := StreamHeader(dtype, index, name, flags, current, count, buffer);
            && U16(h, 72) == Mask16(flags) && U64(h, 74) == Mask64(current)
            && U16(h, 82) == 138 && U16(h, 84) == Mask16(count) && U32(h, 128) == buffer
            && U16(h, 132) == Mask16(138 + 8 * count) && U16(h, 134) == 0 && U16(h, 136) == 0
  {
    StreamStartFields(dtype, index, name, flags, current);
    StreamRestFields(count, buffer);
    JoinedStreamFields(StreamStart(dtype, index, name, flags, current), StreamRest(count, buffer));
  }

  lemma {:induction false} StreamDecodes(dtype: nat, index: nat, name: Bytes, flags: nat, formats: seq<nat>,
                                         buffer: nat)
    requires StreamBytes(dtype, index, name, flags, formats, buffer).Ok?
    ensures StreamOf(StreamBytes(dtype, index, name, flags, formats, buffer).value) ==
            Ok(StreamFields(138, Mask16(|formats|), Mask16(flags), Mask64(formats[0]),
                            Masked64(formats[..Mask16(|formats|)]), buffer, Mask16(138 + 8 * |formats|), 0, 0))
  {
    StreamHeaderFields(dtype, index, name, flags, formats[0], |formats|, buffer);
    StreamOfParts(StreamHeader(dtype, index, name, flags, formats[0], |formats|, buffer), formats);
  }

  /**
   Every accepted stream descriptor decodes to what it was built from, for all list lengths: the
   count is 16 bits wide, so exactly the first |formats| mod 2^16 formats come back, in order.
   */
  lemma {:induction false} StreamRoundTrip(dtype: nat, index: nat, name: Bytes, flags: nat, formats: seq<nat>,
                                           buffer: nat)
    requires dtype == STREAM_INPUT || dtype == STREAM_OUTPUT
    requires StreamBytes(dtype, index, name, flags, formats, buffer).Ok?
    ensures DescriptorFieldsOf(dtype, StreamBytes(dtype, index, name, flags, formats, buffer).value) ==
            Ok(StreamFields(138, Mask16(|formats|), Mask16(flags), Mask64(formats[0]),
                            Masked64(formats[..Mask16(|formats|)]), buffer, Mask16(138 + 8 * |formats|), 0, 0))
  {
    StreamDecodes(dtype, index, name, flags, formats, buffer);
  }

  lemma {:induction false} StreamLength(dtype: nat, k: nat, name: Bytes, flags: nat, formats: seq<nat>, buffer: nat)
    requires StreamBytes(dtype, k, name, flags, formats, buffer).Ok?
    ensures |StreamBytes(dtype, k, name, flags, formats, buffer).value| == 138 + 8 * |formats|
  {
    FlatLength(FormatRecords(formats), 8);
  }

  /** A stream descriptor fits the AEM maximum exactly when it has at most 46 formats. */
  lemma {:induction false} StreamFitsAtMost46Formats(dtype: nat, index: nat, name: Bytes, flags: nat, formats: seq<nat>,
                                                     buffer: nat)
    requires StreamBytes(dtype, index, name, flags, formats, buffer).Ok?
    ensures |StreamBytes(dtype, index, name, flags, formats, buffer).value| <= AEM_DESCRIPTOR_MAX_BYTES
            <==> |formats| <= 46 == MAX_STREAM_FORMATS
  {
    StreamLength(dtype, index, name, flags, formats, buffer);
  }

  lemma {:induction false} RowReads(row: MapRow)
    ensures var b := RowBytes(row);
            MapRow(U16(b, 0), U16(b, 2), U16(b, 4), U16(b, 6)) == MaskedRow(row)
  {
    Be16Reads(row.stream);
    Be16Reads(row.streamChannel);
    Be16Reads(row.clusterOffset);
    Be16Reads(row.clusterChannel);
  }

  lemma {:induction false} RowsRead(rows: seq<MapRow>, n: nat)
    requires n <= |rows|
    ensures Rows(RowRecords(rows)[..n]) == MaskedRows(rows[..n])
  {
    forall i | 0 <= i < n ensures Rows(RowRecords(rows)[..n])[i] == MaskedRows(rows[..n])[i] {
      RowReads(rows[i]);
    }
  }

  lemma {:induction false} AudioMapOfParts(h: Bytes, records: seq<Bytes>)
    requires |h| == 8 && U16(h, 4) == 8 && Uniform(records, 8) && U16(h, 6) <= |records|
    ensures AudioMapOf(h + Flat(records)) == Ok(AudioMapFields(8, U16(h, 6), Rows(records[..U16(h, 6)])))
  {
    HeaderFields(h, Flat(records));
    RecordsRoundTrip(h, records, 8, U16(h, 6));
  }

  lemma {:induction false} AudioMapHeaderFields(index: nat, count: nat)
    ensures U16(AudioMapHeader(index, count), 4) == 8 && U16(AudioMapHeader(index, count), 6) == Mask16(count)
  {
    var h := AudioMapHeader(index, count);
    assert h[4..6] == Be16(8) && h[6..8] == Be16(count);
    FieldIs16(h, 4, Be16(8));
    FieldIs16(h, 6, Be16(count));
    Be16Reads(count);
  }

  lemma {:induction false} AudioMapRoundTrip(index: nat, rows: seq<MapRow>)
    ensures DescriptorFieldsOf(AUDIO_MAP, AudioMapBytes(index, rows)) ==
            Ok(AudioMapFields(8, Mask16(|rows|), MaskedRows(rows[..Mask16(|rows|)])))
  {
    AudioMapHeaderFields(index, |rows|);
    AudioMapOfParts(AudioMapHeader(index, |rows|), RowRecords(rows));
    RowsRead(rows, Mask16(|rows|));
  }

  lemma {:induction false} AudioUnitHeaderFields(name: Bytes, current: nat, nIn: nat, nOut: nat, count: nat)
    requires IsU32(current)
    ensures var h := AudioUnitHeader(name, current, nIn, nOut, count);
            && U16(h, 72) == Mask16(nIn) && U16(h, 74) == 0 && U16(h, 76) == Mask16(nOut) && U16(h, 78) == 0
            && U32(h, 136) == current && U16(h, 140) == 144 && U16(h, 142) == Mask16(count)
  {
    var h := AudioUnitHeader(name, current, nIn, nOut, count);
    assert h[72..74] == Be16(nIn) && h[74..76] == Be16(0) && h[76..78] == Be16(nOut) && h[78..80] == Be16(0);
    assert h[136..140] == Word32(current) && h[140..142] == Be16(144) && h[142..144] == Be16(count);
    FieldIs16(h, 72, Be16(nIn));
    FieldIs16(h, 74, Be16(0));
    FieldIs16(h, 76, Be16(nOut));
    FieldIs16(h, 78, Be16(0));
    FieldIs32(h, 136, Word32(current));
    FieldIs16(h, 140, Be16(144));
    FieldIs16(h, 142, Be16(count));
    Be32Reads(current);
    Be16Reads(nIn);
    Be16Reads(nOut);
    Be16Reads(count);
  }

  lemma {:induction false} AudioUnitOfParts(h: Bytes, records: seq<Bytes>)
    requires |h| == 144 && U16(h, 140) == 144 && Uniform(records, 4) && U16(h, 142) <= |records|
    ensures AudioUnitOf(h + Flat(records)) ==
            Ok(AudioUnitFields(144, U16(h, 142), U32(h, 136), Words32(records[..U16(h, 142)]),
                               (U16(h, 72), U16(h, 74)), (U16(h, 76), U16(h, 78))))
  {
    HeaderFields(h, Flat(records));
    RecordsRoundTrip(h, records, 4, U16(h, 142));
  }

  lemma {:induction false} RatesRead(rates: seq<nat>, n: nat)
    requires AllU32(rates) && n <= |rates|
    ensures Words32(RateRecords(rates)[..n]) == rates[..n]
  {
    forall i | 0 <= i < n ensures Words32(RateRecords(rates)[..n])[i] == rates[..n][i] {
      assert rates[i] in rates;
      Be32Reads(rates[i]);
    }
  }

  lemma {:induction false} AudioUnitRoundTrip(rates: seq<nat>, current: nat, nIn: nat, nOut: nat, name: Bytes)
    requires AudioUnitBytes(rates, current, nIn, nOut, name).Ok?
    ensures DescriptorFieldsOf(AUDIO_UNIT, AudioUnitBytes(rates, current, nIn, nOut, name).value) ==
            Ok(AudioUnitFields(144, Mask16(|rates|), current, rates[..Mask16(|rates|)],
                               (Mask16(nIn), 0), (Mask16(nOut), 0)))
  {
    AudioUnitHeaderFields(name, current, nIn, nOut, |rates|);
    AudioUnitOfParts(AudioUnitHeader(name, current, nIn, nOut, |rates|), RateRecords(rates));
    RatesRead(rates, Mask16(|rates|));
  }

  lemma {:induction false} UnitLength(rates: seq<nat>, current: nat, nIn: nat, nOut: nat, name: Bytes)
    requires AudioUnitBytes(rates, current, nIn, nOut, name).Ok?
    ensures |AudioUnitBytes(rates, current, nIn, nOut, name).value| == 144 + 4 * |rates|
  {
    FlatLength(RateRecords(rates), 4);
  }

  lemma {:induction false} ConfigurationLength(nIn: nat, nOut: nat, nClk: nat, name: Bytes)
    ensures |ConfigurationBytes(nIn, nOut, nClk, name)| == 106
  {
    FlatLength(CountRecords(ConfigurationCounts(nIn, nOut, nClk)), 4);
  }

  lemma {:induction false} ClockDomainLength(n: nat, name: Bytes)
    ensures |ClockDomainBytes(n, name)| == 76 + 2 * n
  {
    FlatLength(SourceRecords(n), 2);
  }

  lemma {:induction false} AudioMapLength(index: nat, rows: seq<MapRow>)
    ensures |AudioMapBytes(index, rows)| == 8 + 8 * |rows|
  {
    FlatLength(RowRecords(rows), 8);
  }

  lemma {:induction false} ConfigurationOfParts(h: Bytes, records: seq<Bytes>)
    requires |h| == 74 && U16(h, 72) == 74 && Uniform(records, 4) && U16(h, 70) <= |records|
    ensures ConfigurationOf(h + Flat(records)) ==
            Ok(ConfigurationFields(74, U16(h, 70), Pairs(records[..U16(h, 70)])))
  {
    HeaderFields(h, Flat(records));
    RecordsRoundTrip(h, records, 4, U16(h, 70));
  }

  lemma {:induction false} ConfigurationHeaderFields(name: Bytes, count: nat)
    ensures U16(ConfigurationHeader(name, count), 70) == Mask16(count) && U16(ConfigurationHeader(name, count), 72) == 74
  {
    var h := ConfigurationHeader(name, count);
    assert h[70..72] == Be16(count) && h[72..74] == Be16(74);
    FieldIs16(h, 70, Be16(count));
    FieldIs16(h, 72, Be16(74));
  }

  lemma {:induction false} PairReads(a: nat, b: nat)
    ensures U16(Be16(a) + Be16(b), 0) == Mask16(a) && U16(Be16(a) + Be16(b), 2) == Mask16(b)
  {
  }

  lemma {:induction false} CountsRead(counts: seq<(nat, nat)>)
    ensures Pairs(CountRecords(counts)) ==
            seq(|counts|, i requires 0 <= i < |counts| => (Mask16(counts[i].0), Mask16(counts[i].1)))
  {
    forall i | 0 <= i < |counts| ensures Pairs(CountRecords(counts))[i] == (Mask16(counts[i].0), Mask16(counts[i].1)) {
      PairReads(counts[i].0, counts[i].1);
    }
  }

  lemma {:induction false} ConfigurationRoundTrip(nIn: nat, nOut: nat, nClk: nat, name: Bytes)
    ensures DescriptorFieldsOf(CONFIGURATION, ConfigurationBytes(nIn, nOut, nClk, name)) ==
            Ok(ConfigurationFields(74, 8, ConfigurationCounts(Mask16(nIn), Mask16(nOut), Mask16(nClk))))
  {
    var counts := ConfigurationCounts(nIn, nOut, nClk);
    ConfigurationHeaderFields(name, 8);
    ConfigurationOfParts(ConfigurationHeader(name, 8), CountRecords(counts));
    assert CountRecords(counts)[..8] == CountRecords(counts);
    CountsRead(counts);
    assert Pairs(CountRecords(counts)) == ConfigurationCounts(Mask16(nIn), Mask16(nOut), Mask16(nClk));
  }

  lemma {:induction false} ClockDomainHeaderFields(name: Bytes, count: nat)
    ensures U16(ClockDomainHeader(name, count), 72) == 76 && U16(ClockDomainHeader(name, count), 74) == Mask16(count)
  {
    var h := ClockDomainHeader(name, count);
    assert h[72..74] == Be16(76) && h[74..76] == Be16(count);
    FieldIs16(h, 72, Be16(76));
    FieldIs16(h, 74, Be16(count));
  }

  lemma {:induction false} ClockDomainOfParts(h: Bytes, records: seq<Bytes>)
    requires |h| == 76 && U16(h, 72) == 76 && Uniform(records, 2) && U16(h, 74) <= |records|
    ensures ClockDomainOf(h + Flat(records)) == Ok(ClockDomainFields(76, U16(h, 74), Words16(records[..U16(h, 74)])))
  {
    HeaderFields(h, Flat(records));
    RecordsRoundTrip(h, records, 2, U16(h, 74));
  }

  lemma {:induction false} SourcesRead(n: nat, k: nat)
    requires k <= n && k <= 0x1_0000
    ensures Words16(SourceRecords(n)[..k]) == Range(k)
  {
    forall i: nat | i < k ensures Words16(SourceRecords(n)[..k])[i] == i {
      Be16Reads(i);
    }
  }

  /** The domain lists the identity permutation of its sources. */
  lemma {:induction false} ClockDomainRoundTrip(n: nat, name: Bytes)
    ensures DescriptorFieldsOf(CLOCK_DOMAIN, ClockDomainBytes(n, name)) ==
            Ok(ClockDomainFields(76, Mask16(n), Range(Mask16(n))))
  {
    ClockDomainHeaderFields(name, n);
    ClockDomainOfParts(ClockDomainHeader(name, n), SourceRecords(n));
    SourcesRead(n, Mask16(n));
  }

  lemma {:induction false} StreamPortRoundTrip(dtype: nat, index: nat, flags: nat, bounds: PortMapBounds)
    requires dtype == STREAM_PORT_INPUT || dtype == STREAM_PORT_OUTPUT
    ensures DescriptorFieldsOf(dtype, StreamPortBytes(dtype, index, flags, bounds)) ==
            Ok(StreamPortFields(Mask16(bounds.clusters), Mask16(bounds.baseCluster),
                                Mask16(bounds.maps), Mask16(bounds.baseMap)))
  {
    var b := StreamPortBytes(dtype, index, flags, bounds);
    assert b[12..14] == Be16(bounds.clusters) && b[14..16] == Be16(bounds.baseCluster);
    assert b[16..18] == Be16(bounds.maps) && b[18..20] == Be16(bounds.baseMap);
    FieldIs16(b, 12, Be16(bounds.clusters));
    FieldIs16(b, 14, Be16(bounds.baseCluster));
    FieldIs16(b, 16, Be16(bounds.maps));
    FieldIs16(b, 18, Be16(bounds.baseMap));
    Be16Reads(bounds.clusters);
    Be16Reads(bounds.baseCluster);
    Be16Reads(bounds.maps);
    Be16Reads(bounds.baseMap);
  }
}
