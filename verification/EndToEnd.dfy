/**
 From the specification to the independent decoder: what scripts/audit_pp_descriptors.py reads out
 of a packed image that holds a built model's document is what the specification says.
 */
module EndToEnd {
  import opened AemSpec
  import opened Assemble
  import opened AudioMaps
  import opened BuildModel
  import opened Descriptors
  import opened DescriptorFields
  import opened Document
  import opened Identity
  import opened Layouts
  import opened ImageAudit
  import opened MapServing
  import opened ModelDocument
  import opened ModelLayout
  import opened NameTable
  import opened Octets
  import opened Sequences
  import opened TwoLevel
  import opened Wrappers

  // ----- the document carries the whole image

  function AllOctets(ds: seq<DocDesc>): Bytes {
    if ds == [] then [] else AllOctets(ds[..|ds| - 1]) + ds[|ds| - 1].octets
  }

  /** The directory's spans are adjacent from 0 and end with the ROM. */
  ghost predicate Contiguous(dir: seq<Entry>, size: nat) {
    && dir != [] && dir[0].base == 0 && dir[|dir| - 1].base + dir[|dir| - 1].length == size
    && (forall r :: 0 < r < |dir| ==> Adjacent(dir, r))
    && (forall r :: 0 <= r < |dir| ==> Inside(dir, r, size))
  }

  ghost predicate Inside(dir: seq<Entry>, r: nat, size: nat)
    requires r < |dir|
  {
    dir[r].base + dir[r].length <= size
  }

  lemma {:induction false} OctetsAreAPrefix(doc: Doc, rom: Bytes, dir: seq<Entry>, named: Slots, n: nat)
    requires IsDocumentOf(doc, rom, dir, named) && Contiguous(dir, |rom|) && 0 < n <= |dir|
    ensures dir[n - 1].base + dir[n - 1].length <= |rom|
    ensures AllOctets(doc.descriptors[..n]) == rom[..dir[n - 1].base + dir[n - 1].length]
  {
    var ds, e := doc.descriptors, dir[n - 1];
    assert RowIs(doc, rom, dir, n - 1) && Inside(dir, n - 1, |rom|);
    assert ds[..n][..n - 1] == ds[..n - 1];
    assert Slice(rom, e.base, e.base + e.length) == rom[e.base..e.base + e.length];
    if n > 1 {
      OctetsAreAPrefix(doc, rom, dir, named, n - 1);
      assert Adjacent(dir, n - 1);
      assert rom[..e.base + e.length] == rom[..e.base] + rom[e.base..e.base + e.length];
    } else {
      assert ds[..0] == [];
    }
  }

  lemma {:induction false} TilesAreContiguous(descs: seq<Desc>, rom: Bytes, dir: seq<Entry>)
    requires Tiles(descs, rom, dir) && descs != []
    ensures Contiguous(dir, |rom|)
  {
    forall r | 0 <= r < |dir| ensures Inside(dir, r, |rom|) {
      assert SpanOf(descs, rom, dir, r);
    }
  }

  lemma {:induction false} RowsCarryTheImage(descs: seq<Desc>, rom: Bytes, dir: seq<Entry>, baked: Bytes, doc: Doc,
                                             named: Slots)
    requires Tiles(descs, rom, dir) && descs != [] && |baked| == |rom| && IsDocumentOf(doc, baked, dir, named)
    ensures AllOctets(doc.descriptors) == baked
  {
    TilesAreContiguous(descs, rom, dir);
    OctetsAreAPrefix(doc, baked, dir, named, |dir|);
    assert doc.descriptors[..|dir|] == doc.descriptors && baked[..|rom|] == baked;
  }

  lemma {:induction false} BakingKeepsSize(descs: seq<Desc>, e: Bytes, avb: Bytes, a: nat, ident: Ident, baked: Bytes)
    requires IdentityAt(descs, e, avb, a) && Baked(Rom(descs), ReadOverlays(0, a), ident) == Ok(baked)
    ensures |baked| == |Rom(descs)| && descs != []
  {
    IdentityTouchesOnly(Rom(descs), 0, a, ident);
  }

  /** Nothing is lost or repeated: the rows' bytes, in order, are the baked image. */
  lemma {:induction false} DocumentCarriesTheImage(m: Model, spec: Spec, ident: Ident, baked: Bytes, doc: Doc)
    requires IsModelOf(m, spec) && Baked(m.rom, m.overlays, ident) == Ok(baked)
    requires IsDocumentOf(doc, baked, m.directory, SlotMap(m.named))
    ensures AllOctets(doc.descriptors) == baked
  {
    var descs, e, avb, a := TakeApart(m, spec);
    BakingKeepsSize(descs, e, avb, a, ident, baked);
    RowsCarryTheImage(descs, m.rom, m.directory, baked, doc, SlotMap(m.named));
  }

  // ----- the document serves each descriptor

  function DocRows(doc: Doc): seq<DocRow> {
    seq(|doc.descriptors|, r requires 0 <= r < |doc.descriptors| =>
      DocRow(doc.descriptors[r].typ, doc.descriptors[r].idx, doc.descriptors[r].octets))
  }

  lemma {:induction false} DocumentRowAt(rows: seq<DocRow>, r: nat)
    requires r < |rows|
    requires forall q :: 0 <= q < r ==> !(rows[q].typ == rows[r].typ && rows[q].idx == rows[r].idx)
    ensures DocumentRow(rows, rows[r].typ, rows[r].idx) == Some(rows[r].octets)
  {
    if r > 0 {
      assert rows[1..][r - 1] == rows[r];
      DocumentRowAt(rows[1..], r - 1);
    }
  }

  /** The row that answers a key of an addressable directory is that key's own slice of the image. */
  lemma {:induction false} RowAnswersItsKey(doc: Doc, baked: Bytes, dir: seq<Entry>, named: Slots, r: nat)
    requires IsDocumentOf(doc, baked, dir, named) && Addressable(dir) && r < |dir|
    ensures DocumentRow(DocRows(doc), dir[r].typ, dir[r].idx) == Some(Slice(baked, dir[r].base, dir[r].base + dir[r].length))
  {
    var rows := DocRows(doc);
    assert RowIs(doc, baked, dir, r);
    forall q | 0 <= q < r ensures !(rows[q].typ == rows[r].typ && rows[q].idx == rows[r].idx) {
      assert RowIs(doc, baked, dir, q);
      if dir[q].typ == dir[r].typ && dir[q].idx == dir[r].idx {
        KeysAreUnique(dir, q, r);
      }
    }
    DocumentRowAt(rows, r);
  }

  /** The document answers a descriptor's key with the image's octets at that descriptor's base. */
  lemma {:induction false} DocumentServes(doc: Doc, baked: Bytes, dir: seq<Entry>, named: Slots, descs: seq<Desc>,
                                          d: Desc, base: nat)
    requires IsDocumentOf(doc, baked, dir, named) && Single(descs, dir)
    requires d in descs && BaseOf(dir, d.typ, d.idx) == Some(base) && base + |d.img| <= |baked|
    ensures DocumentRow(DocRows(doc), d.typ, d.idx) == Some(baked[base..base + |d.img|])
  {
    var r :| 0 <= r < |descs| && descs[r] == d;
    assert RowDescribes(descs, dir, r);
    BaseOfRow(dir, r);
    RowAnswersItsKey(doc, baked, dir, named, r);
    assert Slice(baked, base, base + |d.img|) == baked[base..base + |d.img|];
  }

  lemma {:induction false} DocumentServesKept(doc: Doc, rom: Bytes, baked: Bytes, dir: seq<Entry>, named: Slots,
                                              descs: seq<Desc>, d: Desc)
    requires IsDocumentOf(doc, baked, dir, named) && Single(descs, dir) && AllKept(descs, dir, rom, baked)
    requires d in descs && d.typ != ENTITY && d.typ != AVB_INTERFACE
    ensures DocumentRow(DocRows(doc), d.typ, d.idx) == Some(d.img) && |d.img| <= |rom|
  {
    assert KeptAt(dir, rom, baked, d);
    DocumentServes(doc, baked, dir, named, descs, d, BaseOf(dir, d.typ, d.idx).value);
  }

  /** A built model's document answers each descriptor's key, but the identity's two, with its own bytes. */
  lemma {:induction false} ModelServesKept(m: Model, spec: Spec, ident: Ident, baked: Bytes, doc: Doc, descs: seq<Desc>,
                                           d: Desc)
    requires IsModelOf(m, spec) && Baked(m.rom, m.overlays, ident) == Ok(baked)
    requires IsDocumentOf(doc, baked, m.directory, SlotMap(m.named)) && AllDescriptors(spec) == Ok(descs)
    requires d in descs && d.typ != ENTITY && d.typ != AVB_INTERFACE
    ensures DocumentRow(DocRows(doc), d.typ, d.idx) == Some(d.img) && |d.img| <= 0x10000 - 64
  {
    var parts, e, avb, a := TakeApart(m, spec);
    BuiltIsSingle(spec, descs);
    BakingKeepsTheOthers(descs, e, avb, a, ident, baked);
    DocumentServesKept(doc, m.rom, baked, m.directory, SlotMap(m.named), descs, d);
  }

  /** An accepted audit of a model's document. */
  ghost predicate Audited(m: Model, spec: Spec, ident: Ident, baked: Bytes, doc: Doc, blob: Bytes, rows: seq<Row>,
                          slots: seq<Slot>) {
    && IsModelOf(m, spec) && Baked(m.rom, m.overlays, ident) == Ok(baked)
    && IsDocumentOf(doc, baked, m.directory, SlotMap(m.named))
    && RowsOf(blob, rows, slots) && AllDocumented(DocRows(doc), blob, slots)
  }

  /** The audited row of a descriptor decodes that descriptor's own bytes. */
  lemma {:induction false} AuditDecodes(m: Model, spec: Spec, ident: Ident, baked: Bytes, doc: Doc, blob: Bytes,
                                        rows: seq<Row>, slots: seq<Slot>, j: nat, descs: seq<Desc>, d: Desc)
    requires Audited(m, spec, ident, baked, doc, blob, rows, slots) && AllDescriptors(spec) == Ok(descs)
    requires d in descs && d.typ != ENTITY && d.typ != AVB_INTERFACE
    requires j < |rows| && rows[j].slot.dtype == d.typ && rows[j].slot.index == d.idx
    ensures DescriptorFieldsOf(d.typ, d.img) == Ok(rows[j].fields) && |d.img| <= 0x10000 - 64
  {
    ModelServesKept(m, spec, ident, baked, doc, descs, d);
    AuditReadsTheDocument(DocRows(doc), blob, rows, slots, j);
  }

  // ----- what the decoder reads is what the specification says

  lemma {:induction false} CountsAreExact(formats: seq<nat>, flags: nat)
    requires 138 + 8 * |formats| < 0x1_0000 && flags < 4
    ensures Mask16(|formats|) == |formats| && formats[..Mask16(|formats|)] == formats
    ensures Mask16(flags) == flags && Mask16(138 + 8 * |formats|) == 138 + 8 * |formats|
  {
  }

  lemma {:induction false} StreamExact(dtype: nat, k: nat, name: Bytes, flags: nat, formats: seq<nat>, buffer: nat)
    requires (dtype == STREAM_INPUT || dtype == STREAM_OUTPUT) && flags < 4
    requires StreamBytes(dtype, k, name, flags, formats, buffer).Ok?
    requires |StreamBytes(dtype, k, name, flags, formats, buffer).value| < 0x1_0000
    ensures DescriptorFieldsOf(dtype, StreamBytes(dtype, k, name, flags, formats, buffer).value) ==
            Ok(StreamFields(138, |formats|, flags, Mask64(formats[0]), Masked64(formats), buffer, 138 + 8 * |formats|, 0, 0))
  {
    StreamLength(dtype, k, name, flags, formats, buffer);
    CountsAreExact(formats, flags);
    StreamRoundTrip(dtype, k, name, flags, formats, buffer);
  }

  function StreamFlags(dtype: nat, s: Stream): nat {
    if dtype == STREAM_INPUT || s.kind == Crf then 3 else 2
  }

  function StreamBuffer(dtype: nat, s: Stream): nat {
    if dtype == STREAM_INPUT then s.buffer else 0
  }

  lemma {:induction false} StreamFieldsExact(dtype: nat, k: nat, s: Stream)
    requires (dtype == STREAM_INPUT || dtype == STREAM_OUTPUT) && StreamImage(dtype, k, s).Ok?
    requires |StreamImage(dtype, k, s).value| < 0x1_0000
    ensures s.formats != [] && DescriptorFieldsOf(dtype, StreamImage(dtype, k, s).value) ==
            Ok(StreamFields(138, |s.formats|, StreamFlags(dtype, s), Mask64(s.formats[0]), Masked64(s.formats),
                            StreamBuffer(dtype, s), 138 + 8 * |s.formats|, 0, 0))
  {
    StreamExact(dtype, k, s.name, StreamFlags(dtype, s), s.formats, StreamBuffer(dtype, s));
  }

  /** Every stream's formats, current format and buffer come back, all of them and in order. */
  lemma {:induction false} AuditRecoversStream(m: Model, spec: Spec, ident: Ident, baked: Bytes, doc: Doc, blob: Bytes,
                                               rows: seq<Row>, slots: seq<Slot>, j: nat, s: Stream)
    requires Audited(m, spec, ident, baked, doc, blob, rows, slots) && j < |rows|
    requires var (dtype, k) := (rows[j].slot.dtype, rows[j].slot.index);
             (dtype == STREAM_INPUT && k < |spec.streamInputs| && s == spec.streamInputs[k])
             || (dtype == STREAM_OUTPUT && k < |spec.streamOutputs| && s == spec.streamOutputs[k])
    ensures s.formats != [] && rows[j].fields.StreamFields?
    ensures rows[j].fields == StreamFields(138, |s.formats|, StreamFlags(rows[j].slot.dtype, s), Mask64(s.formats[0]),
                                           Masked64(s.formats), StreamBuffer(rows[j].slot.dtype, s), 138 + 8 * |s.formats|, 0, 0)
  {
    var dtype, k := rows[j].slot.dtype, rows[j].slot.index;
    StreamPresent(spec, dtype, k);
    var d := Desc(dtype, k, StreamImage(dtype, k, s).value);
    AuditDecodes(m, spec, ident, baked, doc, blob, rows, slots, j, AllDescriptors(spec).value, d);
    StreamFieldsExact(dtype, k, s);
  }

  lemma {:induction false} MapFieldsExact(k: nat, rows: seq<MapRow>)
    requires |AudioMapBytes(k, rows)| < 0x1_0000
    ensures DescriptorFieldsOf(AUDIO_MAP, AudioMapBytes(k, rows)) == Ok(AudioMapFields(8, |rows|, MaskedRows(rows)))
  {
    FlatLength(RowRecords(rows), 8);
    AudioMapRoundTrip(k, rows);
    assert rows[..|rows|] == rows;
  }

  /** Every audio map's mappings come back, all of them and in order, each field sixteen bits wide. */
  lemma {:induction false} AuditRecoversMap(m: Model, spec: Spec, ident: Ident, baked: Bytes, doc: Doc, blob: Bytes,
                                            rows: seq<Row>, slots: seq<Slot>, j: nat)
    requires Audited(m, spec, ident, baked, doc, blob, rows, slots) && j < |rows|
    requires rows[j].slot.dtype == AUDIO_MAP && rows[j].slot.index < |spec.audioMaps|
    ensures var maps := spec.audioMaps[rows[j].slot.index];
            rows[j].fields == AudioMapFields(8, |maps|, MaskedRows(maps))
  {
    var k := rows[j].slot.index;
    MapPresent(spec, k);
    AuditDecodes(m, spec, ident, baked, doc, blob, rows, slots, j, AllDescriptors(spec).value,
                 Desc(AUDIO_MAP, k, AudioMapBytes(k, spec.audioMaps[k])));
    MapFieldsExact(k, spec.audioMaps[k]);
  }

  /** Mapping r as stated, but for a stream channel past sixteen bits. */
  ghost predicate ReadAsStated(read: seq<MapRow>, stated: seq<MapRow>, streams: seq<Stream>, r: nat)
    requires r < |stated| && r < |read|
  {
    && read[r] == stated[r].(streamChannel := Mask16(stated[r].streamChannel))
    && (!PastWidest(streams, stated[r]) ==> read[r] == stated[r])
  }

  /** A map read as stated, and entire when the gate records no deviation in it. */
  ghost predicate MapAsStated(read: seq<MapRow>, stated: seq<MapRow>, streams: seq<Stream>) {
    && |read| == |stated| && (forall r :: 0 <= r < |stated| ==> ReadAsStated(read, stated, streams, r))
    && ((forall row :: row in stated ==> !PastWidest(streams, row)) ==> read == stated)
  }

  lemma {:induction false} RowsAsStated(stated: seq<MapRow>, streams: seq<Stream>)
    requires forall r :: 0 <= r < |stated| ==> ReadAsStated(MaskedRows(stated), stated, streams, r)
    ensures MapAsStated(MaskedRows(stated), stated, streams)
  {
    if forall row :: row in stated ==> !PastWidest(streams, row) {
      forall r | 0 <= r < |stated| ensures MaskedRows(stated)[r] == stated[r] {
        assert ReadAsStated(MaskedRows(stated), stated, streams, r) && stated[r] in stated;
      }
    }
  }

  lemma {:induction false} ServedMapIsExact(spec: Spec, dir: seq<Entry>, side: Side, k: nat)
    requires SmallCounts(spec) && MapsConform(spec, dir) && (side == InputSide(spec) || side == OutputSide(spec))
    requires k < |side.ports| && !side.ports[k].dynamic
    ensures side.ports[k].baseMap < |spec.audioMaps|
    ensures var stated := spec.audioMaps[side.ports[k].baseMap]; MapAsStated(MaskedRows(stated), stated, side.streams)
  {
    assert PortBounded(side, spec.audioMaps, dir, k);
    var stated := spec.audioMaps[side.ports[k].baseMap];
    forall r | 0 <= r < |stated| ensures ReadAsStated(MaskedRows(stated), stated, side.streams, r) {
      AcceptedRowIsExact(spec, side, dir, k, r);
    }
    RowsAsStated(stated, side.streams);
  }

  /** A map some static port serves comes back as the specification states it. */
  lemma {:induction false} AuditRecoversServedMap(m: Model, spec: Spec, ident: Ident, baked: Bytes, doc: Doc,
                                                  blob: Bytes, rows: seq<Row>, slots: seq<Slot>, j: nat, side: Side,
                                                  k: nat)
    requires Audited(m, spec, ident, baked, doc, blob, rows, slots) && j < |rows|
    requires side == InputSide(spec) || side == OutputSide(spec)
    requires k < |side.ports| && !side.ports[k].dynamic
    requires rows[j].slot.dtype == AUDIO_MAP && rows[j].slot.index == side.ports[k].baseMap
    ensures side.ports[k].baseMap < |spec.audioMaps| && rows[j].fields.AudioMapFields?
    ensures MapAsStated(rows[j].fields.mappings, spec.audioMaps[side.ports[k].baseMap], side.streams)
  {
    AuditedCounts(m, spec);
    ServedMapIsExact(spec, m.directory, side, k);
    AuditRecoversMap(m, spec, ident, baked, doc, blob, rows, slots, j);
  }

  lemma {:induction false} UnitFieldsExact(rates: seq<nat>, current: nat, nIn: nat, nOut: nat, name: Bytes)
    requires AudioUnitBytes(rates, current, nIn, nOut, name).Ok?
    requires |AudioUnitBytes(rates, current, nIn, nOut, name).value| < 0x1_0000
    ensures DescriptorFieldsOf(AUDIO_UNIT, AudioUnitBytes(rates, current, nIn, nOut, name).value) ==
            Ok(AudioUnitFields(144, |rates|, current, rates, (Mask16(nIn), 0), (Mask16(nOut), 0)))
  {
    UnitLength(rates, current, nIn, nOut, name);
    assert Mask16(|rates|) == |rates| && rates[..|rates|] == rates;
    AudioUnitRoundTrip(rates, current, nIn, nOut, name);
  }

  /** The sampling rates, the current one and the port counts come back. */
  lemma {:induction false} AuditRecoversRates(m: Model, spec: Spec, ident: Ident, baked: Bytes, doc: Doc, blob: Bytes,
                                              rows: seq<Row>, slots: seq<Slot>, j: nat)
    requires Audited(m, spec, ident, baked, doc, blob, rows, slots) && j < |rows|
    requires rows[j].slot.dtype == AUDIO_UNIT && rows[j].slot.index == 0
    ensures rows[j].fields == AudioUnitFields(144, |spec.rates|, spec.currentRate, spec.rates,
                                              (Mask16(|spec.portsIn|), 0), (Mask16(|spec.portsOut|), 0))
  {
    DescriptorsPresent(spec);
    var img := UnitBytes(spec).value;
    AuditDecodes(m, spec, ident, baked, doc, blob, rows, slots, j, AllDescriptors(spec).value, Desc(AUDIO_UNIT, 0, img));
    UnitFieldsExact(spec.rates, spec.currentRate, |spec.portsIn|, |spec.portsOut|, spec.names.audioUnit);
  }

  lemma {:induction false} AuditedCounts(m: Model, spec: Spec)
    requires IsModelOf(m, spec)
    ensures AllDescriptors(spec).Ok? && SmallCounts(spec)
  {
    CountsAreSmall(spec);
  }

  lemma {:induction false} ConfigurationExact(nIn: nat, nOut: nat, nClk: nat, name: Bytes)
    requires nIn < 0x1_0000 && nOut < 0x1_0000 && nClk < 0x1_0000
    ensures DescriptorFieldsOf(CONFIGURATION, ConfigurationBytes(nIn, nOut, nClk, name)) ==
            Ok(ConfigurationFields(74, 8, ConfigurationCounts(nIn, nOut, nClk)))
  {
    ConfigurationRoundTrip(nIn, nOut, nClk, name);
  }

  /** The counts of every descriptor type come back from CONFIGURATION. */
  lemma {:induction false} AuditRecoversConfiguration(m: Model, spec: Spec, ident: Ident, baked: Bytes, doc: Doc,
                                                      blob: Bytes, rows: seq<Row>, slots: seq<Slot>, j: nat)
    requires Audited(m, spec, ident, baked, doc, blob, rows, slots) && j < |rows|
    requires rows[j].slot.dtype == CONFIGURATION && rows[j].slot.index == 0
    ensures rows[j].fields ==
            ConfigurationFields(74, 8, ConfigurationCounts(|spec.streamInputs|, |spec.streamOutputs|, |spec.clockSources|))
  {
    AuditedCounts(m, spec);
    DescriptorsPresent(spec);
    ConfigurationExact(|spec.streamInputs|, |spec.streamOutputs|, |spec.clockSources|, spec.names.configuration);
    AuditDecodes(m, spec, ident, baked, doc, blob, rows, slots, j, AllDescriptors(spec).value,
                 Desc(CONFIGURATION, 0, ConfigBytes(spec)));
  }

  lemma {:induction false} ClockDomainExact(n: nat, name: Bytes)
    requires n < 0x1_0000
    ensures DescriptorFieldsOf(CLOCK_DOMAIN, ClockDomainBytes(n, name)) == Ok(ClockDomainFields(76, n, Range(n)))
  {
    ClockDomainRoundTrip(n, name);
  }

  /** CLOCK_DOMAIN lists every clock source, in order. */
  lemma {:induction false} AuditRecoversClockDomain(m: Model, spec: Spec, ident: Ident, baked: Bytes, doc: Doc,
                                                    blob: Bytes, rows: seq<Row>, slots: seq<Slot>, j: nat)
    requires Audited(m, spec, ident, baked, doc, blob, rows, slots) && j < |rows|
    requires rows[j].slot.dtype == CLOCK_DOMAIN && rows[j].slot.index == 0
    ensures rows[j].fields == ClockDomainFields(76, |spec.clockSources|, Range(|spec.clockSources|))
  {
    AuditedCounts(m, spec);
    DescriptorsPresent(spec);
    ClockDomainExact(|spec.clockSources|, spec.names.clockDomain);
    AuditDecodes(m, spec, ident, baked, doc, blob, rows, slots, j, AllDescriptors(spec).value,
                 Desc(CLOCK_DOMAIN, 0, ClockDomainBytes(|spec.clockSources|, spec.names.clockDomain)));
  }

  function PortImage(dtype: nat, k: nat, p: Port): Bytes {
    StreamPortBytes(dtype, k, if dtype == STREAM_PORT_INPUT then 1 else 0, PortBounds(p))
  }

  /** Port k of the direction whose descriptors have this type. */
  ghost predicate IsPort(spec: Spec, dtype: nat, k: nat, p: Port) {
    || (dtype == STREAM_PORT_INPUT && k < |spec.portsIn| && p == spec.portsIn[k])
    || (dtype == STREAM_PORT_OUTPUT && k < |spec.portsOut| && p == spec.portsOut[k])
  }

  lemma {:induction false} PortPresent(spec: Spec, dtype: nat, k: nat, p: Port)
    requires AllDescriptors(spec).Ok? && IsPort(spec, dtype, k, p)
    ensures Desc(dtype, k, PortImage(dtype, k, p)) in AllDescriptors(spec).value
  {
    DescriptorsPresent(spec);
    var group := PortDescs(dtype, if dtype == STREAM_PORT_INPUT then spec.portsIn else spec.portsOut);
    assert group[k] in group && group[k] == Desc(dtype, k, PortImage(dtype, k, p));
  }

  /** What a built model's ROM and gate leave of a port's numbers. */
  ghost predicate SmallPort(p: Port) {
    p.clusters < 0x1_0000 && (!p.dynamic ==> p.maps == 1 && p.baseMap < 0x1_0000)
  }

  lemma {:induction false} PortIsSmall(m: Model, spec: Spec, dtype: nat, k: nat, p: Port)
    requires IsModelOf(m, spec) && IsPort(spec, dtype, k, p)
    ensures SmallPort(p)
  {
    AuditedCounts(m, spec);
    var side := if dtype == STREAM_PORT_INPUT then InputSide(spec) else OutputSide(spec);
    assert PortBounded(side, spec.audioMaps, m.directory, k);
    PortWithinClusters(side.ports, k);
  }

  function PortFields(p: Port): Fields {
    if p.dynamic then StreamPortFields(p.clusters, Mask16(p.baseCluster), 0, 0)
    else StreamPortFields(p.clusters, Mask16(p.baseCluster), 1, p.baseMap)
  }

  lemma {:induction false} PortExact(dtype: nat, k: nat, p: Port)
    requires SmallPort(p) && (dtype == STREAM_PORT_INPUT || dtype == STREAM_PORT_OUTPUT)
    ensures DescriptorFieldsOf(dtype, PortImage(dtype, k, p)) == Ok(PortFields(p))
  {
    StreamPortRoundTrip(dtype, k, if dtype == STREAM_PORT_INPUT then 1 else 0, PortBounds(p));
  }

  /** A STREAM_PORT's clusters and its one map come back; its base cluster as sixteen bits hold it. */
  lemma {:induction false} AuditRecoversPort(m: Model, spec: Spec, ident: Ident, baked: Bytes, doc: Doc, blob: Bytes,
                                             rows: seq<Row>, slots: seq<Slot>, j: nat, p: Port)
    requires Audited(m, spec, ident, baked, doc, blob, rows, slots) && j < |rows|
    requires IsPort(spec, rows[j].slot.dtype, rows[j].slot.index, p)
    ensures rows[j].fields == PortFields(p)
  {
    var dtype, k := rows[j].slot.dtype, rows[j].slot.index;
    PortPresent(spec, dtype, k, p);
    AuditDecodes(m, spec, ident, baked, doc, blob, rows, slots, j, AllDescriptors(spec).value,
                 Desc(dtype, k, PortImage(dtype, k, p)));
    PortIsSmall(m, spec, dtype, k, p);
    PortExact(dtype, k, p);
  }

  // ----- the two descriptors identity baking writes

  ghost predicate IdentityOctets(baked: Bytes, a: nat, ident: Ident) {
    && 312 <= a && a + 102 <= |baked|
    && EntityHolds(baked[0..312], ident) && InterfaceHolds(baked[a..a + 102], ident)
  }

  lemma {:induction false} IdentityIsHeld(rom: Bytes, a: nat, ident: Ident, baked: Bytes)
    requires 312 <= a && a + 102 <= |rom| && Baked(rom, ReadOverlays(0, a), ident) == Ok(baked)
    ensures IdentityOctets(baked, a, ident)
  {
    BakedIdentityHeld(rom, 0, a, ident, baked);
  }

  /** Where the two sit. */
  ghost predicate IdentityBases(dir: seq<Entry>, descs: seq<Desc>, e: Bytes, avb: Bytes, a: nat) {
    && |e| == 312 && Desc(ENTITY, 0, e) in descs && BaseOf(dir, ENTITY, 0) == Some(0)
    && |avb| == 102 && Desc(AVB_INTERFACE, 0, avb) in descs && BaseOf(dir, AVB_INTERFACE, 0) == Some(a)
  }

  lemma {:induction false} BakedModel(m: Model, spec: Spec, ident: Ident, baked: Bytes)
    returns (descs: seq<Desc>, e: Bytes, avb: Bytes, a: nat)
    requires IsModelOf(m, spec) && Baked(m.rom, m.overlays, ident) == Ok(baked)
    ensures AllDescriptors(spec) == Ok(descs) && IdentityBases(m.directory, descs, e, avb, a)
    ensures IdentityOctets(baked, a, ident)
  {
    descs, e, avb, a := TakeApart(m, spec);
    IdentityIsHeld(m.rom, a, ident, baked);
  }

  /** The rows hold the identity. */
  ghost predicate RowsHold(rows: seq<DocRow>, ident: Ident) {
    && DocumentRow(rows, ENTITY, 0).Some? && EntityHolds(DocumentRow(rows, ENTITY, 0).value, ident)
    && DocumentRow(rows, AVB_INTERFACE, 0).Some? && InterfaceHolds(DocumentRow(rows, AVB_INTERFACE, 0).value, ident)
  }

  lemma {:induction false} SlicesHold(rows: seq<DocRow>, baked: Bytes, a: nat, ident: Ident)
    requires IdentityOctets(baked, a, ident) && DocumentRow(rows, ENTITY, 0) == Some(baked[0..312])
    requires DocumentRow(rows, AVB_INTERFACE, 0) == Some(baked[a..a + 102])
    ensures RowsHold(rows, ident)
  {
  }

  lemma {:induction false} BasesServe(doc: Doc, baked: Bytes, dir: seq<Entry>, named: Slots, descs: seq<Desc>, e: Bytes,
                                      avb: Bytes, a: nat)
    requires IsDocumentOf(doc, baked, dir, named) && Single(descs, dir) && IdentityBases(dir, descs, e, avb, a)
    requires 312 <= |baked| && a + 102 <= |baked|
    ensures DocumentRow(DocRows(doc), ENTITY, 0) == Some(baked[0..312])
    ensures DocumentRow(DocRows(doc), AVB_INTERFACE, 0) == Some(baked[a..a + 102])
  {
    DocumentServes(doc, baked, dir, named, descs, Desc(ENTITY, 0, e), 0);
    DocumentServes(doc, baked, dir, named, descs, Desc(AVB_INTERFACE, 0, avb), a);
  }

  /** The document's two identity rows hold the identity. */
  lemma {:induction false} DocumentHoldsIdentity(m: Model, spec: Spec, ident: Ident, baked: Bytes, doc: Doc)
    requires IsModelOf(m, spec) && Baked(m.rom, m.overlays, ident) == Ok(baked)
    requires IsDocumentOf(doc, baked, m.directory, SlotMap(m.named))
    ensures RowsHold(DocRows(doc), ident)
  {
    var descs, e, avb, a := BakedModel(m, spec, ident, baked);
    BuiltIsSingle(spec, descs);
    BasesServe(doc, baked, m.directory, SlotMap(m.named), descs, e, avb, a);
    SlicesHold(DocRows(doc), baked, a, ident);
  }

  lemma {:induction false} EntityRowReads(d: Bytes, ident: Ident, fields: Fields)
    requires EntityHolds(d, ident) && DescriptorFieldsOf(ENTITY, d) == Ok(fields)
    ensures EntityCarries(Ok(fields), ident)
  {
    EntityDecodes(d, ident);
  }

  lemma {:induction false} InterfaceRowReads(d: Bytes, ident: Ident, fields: Fields)
    requires InterfaceHolds(d, ident) && DescriptorFieldsOf(AVB_INTERFACE, d) == Ok(fields)
    ensures InterfaceCarries(Ok(fields), ident)
  {
    InterfaceDecodes(d, ident);
  }

  /** The identity numbers ADP advertises come back from the packed ENTITY. */
  lemma {:induction false} AuditRecoversIdentity(m: Model, spec: Spec, ident: Ident, baked: Bytes, doc: Doc,
                                                 blob: Bytes, rows: seq<Row>, slots: seq<Slot>, j: nat)
    requires Audited(m, spec, ident, baked, doc, blob, rows, slots) && j < |rows|
    requires rows[j].slot.dtype == ENTITY && rows[j].slot.index == 0
    ensures EntityCarries(Ok(rows[j].fields), ident)
  {
    DocumentHoldsIdentity(m, spec, ident, baked, doc);
    AuditReadsTheDocument(DocRows(doc), blob, rows, slots, j);
    EntityRowReads(DocumentRow(DocRows(doc), ENTITY, 0).value, ident, rows[j].fields);
  }

  /** The station's MAC and clock identity come back from the packed AVB_INTERFACE. */
  lemma {:induction false} AuditRecoversInterface(m: Model, spec: Spec, ident: Ident, baked: Bytes, doc: Doc,
                                                  blob: Bytes, rows: seq<Row>, slots: seq<Slot>, j: nat)
    requires Audited(m, spec, ident, baked, doc, blob, rows, slots) && j < |rows|
    requires rows[j].slot.dtype == AVB_INTERFACE && rows[j].slot.index == 0
    ensures InterfaceCarries(Ok(rows[j].fields), ident)
  {
    DocumentHoldsIdentity(m, spec, ident, baked, doc);
    AuditReadsTheDocument(DocRows(doc), blob, rows, slots, j);
    InterfaceRowReads(DocumentRow(DocRows(doc), AVB_INTERFACE, 0).value, ident, rows[j].fields);
  }

  // ----- every object of the specification

  lemma {:induction false} KeyIsAnswered(spec: Spec, doc: Doc, baked: Bytes, dir: seq<Entry>, named: Slots, t: nat,
                                         i: nat) returns (b: Bytes)
    requires IsDocumentOf(doc, baked, dir, named) && Addressable(dir) && HasKey(dir, t, i) && DocumentLaid(spec, doc)
    ensures DocumentRow(DocRows(doc), t, i) == Some(b) && Laid(spec, t, i, b)
  {
    var r :| 0 <= r < |dir| && CarriesKey(dir, r, t, i);
    RowAnswersItsKey(doc, baked, dir, named, r);
    assert RowIs(doc, baked, dir, r) && DocumentRowLaid(spec, doc, r);
    b := doc.descriptors[r].octets;
  }

  /** The document answers every object's key with that object, octet by octet as specified. */
  lemma {:induction false} DocumentAnswersEachObject(m: Model, spec: Spec, ident: Ident, baked: Bytes, doc: Doc, t: nat,
                                                     i: nat) returns (b: Bytes)
    requires IsModelOf(m, spec) && Baked(m.rom, m.overlays, ident) == Ok(baked)
    requires IsDocumentOf(doc, baked, m.directory, SlotMap(m.named)) && IsKey(spec, t, i)
    ensures DocumentRow(DocRows(doc), t, i) == Some(b) && Laid(spec, t, i, b)
  {
    ModelDocumentIsLaid(m, spec, ident, baked, doc);
    RowsAreTheObjects(m, spec, t, i);
    ModelIsLaidOut(m, spec);
    b := KeyIsAnswered(spec, doc, baked, m.directory, SlotMap(m.named), t, i);
  }

  /** The audited row of an object decodes octets laid out as that object. */
  lemma {:induction false} AuditDecodesEachObject(m: Model, spec: Spec, ident: Ident, baked: Bytes, doc: Doc,
                                                  blob: Bytes, rows: seq<Row>, slots: seq<Slot>, j: nat)
    returns (b: Bytes)
    requires Audited(m, spec, ident, baked, doc, blob, rows, slots) && j < |rows|
    requires IsKey(spec, rows[j].slot.dtype, rows[j].slot.index)
    ensures Laid(spec, rows[j].slot.dtype, rows[j].slot.index, b)
    ensures DescriptorFieldsOf(rows[j].slot.dtype, b) == Ok(rows[j].fields)
  {
    b := DocumentAnswersEachObject(m, spec, ident, baked, doc, rows[j].slot.dtype, rows[j].slot.index);
    AuditReadsTheDocument(DocRows(doc), blob, rows, slots, j);
  }

  // ----- the decoder's fields of laid-out octets

  lemma {:induction false} ClockSourceReads(b: Bytes, k: nat, cs: ClockSource)
    requires ClockSourceLaid(b, k, cs)
    ensures DescriptorFieldsOf(10, b) == Ok(ClockSourceFields(Mask16(cs.csType), Mask16(cs.locType), Mask16(cs.locIndex)))
  {
  }

  lemma {:induction false} ControlReads(b: Bytes, name: Bytes)
    requires ControlLaid(b, name)
    ensures DescriptorFieldsOf(26, b) == Ok(ControlFields(0x90E0_F000_0000_0001, 0, 104))
  {
    assert U16(b, 82) == 0x90E0 && U16(b, 84) == 0xF000 && U16(b, 86) == 0 && U16(b, 88) == 1;
    assert U16(b, 90) == 0 && U16(b, 92) == 0;
  }

  lemma {:induction false} ClusterReads(b: Bytes, k: nat, name: Bytes, signalType: nat)
    requires ClusterLaid(b, k, name, signalType)
    ensures DescriptorFieldsOf(20, b) == Ok(AudioClusterFields(1))
  {
  }

  lemma {:induction false} EntityCountReads(b: Bytes, e: EntityText, fields: Fields)
    requires EntityLaid(b, e) && DescriptorFieldsOf(0, b) == Ok(fields)
    ensures fields.EntityFields? && fields.configurations == 1
  {
  }

  lemma {:induction false} InterfacePortReads(b: Bytes, gp: Gptp, name: Bytes, fields: Fields)
    requires InterfaceLaid(b, gp, name) && DescriptorFieldsOf(9, b) == Ok(fields)
    ensures fields.AvbInterfaceFields? && fields.portNumber == Mask16(gp.portNumber) && fields.controls == 0
  {
  }

  /** The rest of what the decoder reports: one configuration, the interface's port, clock sources, clusters, the control. */
  ghost predicate RestIs(spec: Spec, t: nat, i: nat, fields: Fields) {
    if t == 0 then fields.EntityFields? && fields.configurations == 1
    else if t == 9 then
      fields.AvbInterfaceFields? && fields.portNumber == Mask16(spec.gptp.portNumber) && fields.controls == 0
    else if t == 10 then
      i < |spec.clockSources| && var cs := spec.clockSources[i];
      fields == ClockSourceFields(Mask16(cs.csType), Mask16(cs.locType), Mask16(cs.locIndex))
    else if t == 20 then fields == AudioClusterFields(1)
    else t == 26 ==> fields == ControlFields(0x90E0_F000_0000_0001, 0, 104)
  }

  lemma {:induction false} RestReads(spec: Spec, t: nat, i: nat, b: Bytes, fields: Fields)
    requires Laid(spec, t, i, b) && DescriptorFieldsOf(t, b) == Ok(fields)
    ensures RestIs(spec, t, i, fields)
  {
    if t == 0 {
      EntityCountReads(b, spec.entity, fields);
    } else if t == 9 {
      InterfacePortReads(b, spec.gptp, spec.names.avbInterface, fields);
    } else if t == 10 {
      ClockSourceReads(b, i, spec.clockSources[i]);
    } else if t == 20 {
      ClusterReads(b, i, ClusterName(spec, i), if i < Clusters(spec.portsIn) then 0xFFFF else 2);
    } else if t == 26 {
      ControlReads(b, spec.names.controlIdentify);
    }
  }

  /** The fields no other result covers come back too. */
  lemma {:induction false} AuditRecoversTheRest(m: Model, spec: Spec, ident: Ident, baked: Bytes, doc: Doc, blob: Bytes,
                                                rows: seq<Row>, slots: seq<Slot>, j: nat)
    requires Audited(m, spec, ident, baked, doc, blob, rows, slots) && j < |rows|
    requires IsKey(spec, rows[j].slot.dtype, rows[j].slot.index)
    ensures RestIs(spec, rows[j].slot.dtype, rows[j].slot.index, rows[j].fields)
  {
    var b := AuditDecodesEachObject(m, spec, ident, baked, doc, blob, rows, slots, j);
    RestReads(spec, rows[j].slot.dtype, rows[j].slot.index, b, rows[j].fields);
  }
}
