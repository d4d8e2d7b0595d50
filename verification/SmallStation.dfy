/**
 A smallest station: one AAF and one CRF input, one output, a static and a dynamic input port, and a
 dynamic output port fed from a loopback pool. It is buildable, its output wakes as an echo, its
 names are text, and an image of one descriptor passes both gates of the audit: what is proved of
 every built, baked and audited model is proved of something.
 */
module SmallStation {
  import opened AemSpec
  import opened Assemble
  import opened AudioMaps
  import opened BuildModel
  import opened Descriptors
  import opened DescriptorFields
  import opened Document
  import opened EndToEnd
  import opened Identity
  import opened ImageAudit
  import opened Loopback
  import opened NameTable
  import opened Octets
  import opened SpecNames
  import opened TalkerMap
  import opened Wrappers
  import PowerOn

  const STEREO: nat := 0x0205_0220_0080_6000
  const CRF_48K: nat := 0x0410_6001_0000_BB80
  const ROWS: seq<MapRow> := [MapRow(0, 0, 0, 0)]

  /** The output port's overlay: two loopback clusters, which are also its primary segment. */
  const OVERLAY: PoolPort := PoolPort(true, [Segment(LoopbackRole, 2, 0)], Some(LoopbackRole))
  const ECHO: seq<Template> := [Template(5, 0, 0, 0, true), Template(5, 0, 0, 1, true)]

  const STATION: Spec := Spec(
    EntityText([], [], [], [], []), Names([], [], [], [], []), [], Gptp(248, 248, 0x436A, 254, 248, 0, 253, 0, 0, 1),
    [48000], 48000, [],
    [Stream([], Aaf, [STEREO], 0), Stream([], Crf, [CRF_48K], 0)], [Stream([], Aaf, [STEREO], 0)], [],
    [Port(1, 0, 1, 0, false, None, None, 0, None), Port(1, 1, 0, 0, true, None, None, 0, None)],
    [Port(2, 0, 0, 0, true, None, Some(ECHO), 0, None)], [], [], [ROWS])

  // ----- it is buildable

  lemma {:induction false} StationCounts()
    ensures Clusters(STATION.portsIn) == 2 && Clusters(STATION.portsOut) == 2
    ensures FormatCount(STATION.streamInputs) == 2 && FormatCount(STATION.streamOutputs) == 1
    ensures MappingCount(STATION.audioMaps) == 1
  {
    var ins, outs, si, so, maps := STATION.portsIn, STATION.portsOut, STATION.streamInputs, STATION.streamOutputs,
                                   STATION.audioMaps;
    assert ins[..1][..0] == [] && ins[..1][0] == ins[0] && outs[..0] == [];
    assert si[..1] == [si[0]] && [si[0]][..0] == [] && so[..0] == [] && maps[..0] == [];
    assert FormatCount([si[0]]) == 1 && FormatCount(si) == FormatCount(si[..1]) + 1;
  }

  lemma {:induction false} StationFits()
    ensures RomSize(STATION) + 64 <= 0x10000
  {
    StationCounts();
  }

  lemma {:induction false} StationIsPackable()
    ensures Packable(STATION) && ClustersNamed(STATION)
  {
    StationCounts();
  }

  lemma {:induction false} StationHasBothKinds()
    ensures HasKind(STATION.streamInputs, Aaf) && HasKind(STATION.streamInputs, Crf)
  {
    var ss := STATION.streamInputs;
    assert ss[0] in ss && ss[0].kind == Aaf && ss[1] in ss && ss[1].kind == Crf;
  }

  lemma {:induction false} StationPortsAccepted()
    ensures ListenerAccepts(STATION.portsIn) && TalkerAccepts(STATION, AnyDynamic(STATION.portsIn))
  {
    assert STATION.portsIn[1] in STATION.portsIn;
  }

  lemma {:induction false} StationMapsAccepted()
    ensures MapsAcceptable(STATION)
  {
    var side, maps := InputSide(STATION), STATION.audioMaps;
    assert FmtChannels(STEREO) == Some(2);
    assert STEREO in side.streams[0].formats;
    assert PortWithinBounds(side, maps, 0) && PortWithinBounds(side, maps, 1);
    assert PortMappings(side, maps, 0) == [Mapping(0, 0, MapRow(0, 0, 0, 0))];
    assert PortMappings(side, maps, 1) == [];
    assert AllMappings(OutputSide(STATION), maps, 0) == [];
  }

  lemma {:induction false} StationIsBuildable()
    ensures Buildable(STATION)
  {
    StationIsPackable();
    StationHasBothKinds();
    StationPortsAccepted();
    StationFits();
    StationMapsAccepted();
  }

  // ----- its output port is the overlay's, and echoes

  lemma {:induction false} StationReceives()
    ensures Received(STATION.streamInputs) == [RxChannel(0, 0), RxChannel(0, 1)]
  {
    var ss := STATION.streamInputs;
    assert ss[..1] == [ss[0]] && [ss[0]][..0] == [];
    assert RxWidth(ss[0]) == 2 && Channels(1, 0) == [];
    assert Received(ss) == Received([ss[0]]) + Channels(1, RxWidth(ss[1])) == Channels(0, 2);
    assert Channels(0, 2) == [RxChannel(0, 0), RxChannel(0, 1)];
  }

  lemma {:induction false} StationPortIsTheOverlay()
    ensures PowerOn.FromOverlay(STATION, 0, OVERLAY, true)
    ensures PowerOn.Contiguous(OVERLAY.pool) && PowerOn.IsPrimary(OVERLAY, 0)
  {
    StationReceives();
    var rx := Received(STATION.streamInputs);
    assert Loopback.Widths(OVERLAY.pool) == [2] && [2][..1] == [2];
    forall n | 0 <= n < 2 ensures ClusterFilled(ECHO, OVERLAY.pool, rx, 0, true, 0, n) {
      assert LoopbackChannel(rx, 0, n) == RxChannel(0, n);
    }
  }

  /** Stream channel c of output port 0 is armed and reads received stream 0, channel c. */
  ghost predicate Echoes(t: OdMap, c: nat) {
    && c < |t.init| && t.init[c].v && 0 < |t.pcbase| && t.pcbase[0] + t.init[c].co < |t.csrc|
    && t.csrc[t.pcbase[0] + t.init[c].co] == Template(5, 0, c / 2, c % 2, true)
  }

  lemma {:induction false} StationEchoes(t: OdMap)
    requires Coherent(t, STATION)
    ensures Echoes(t, 0) && Echoes(t, 1)
  {
    StationPortIsTheOverlay();
    assert PortTabled(t, STATION.portsOut, STATION.streamOutputs, 0);
    PowerOn.PrimaryLoopbackEchoes(t, STATION, 0, OVERLAY, true, 0, 0);
    PowerOn.PrimaryLoopbackEchoes(t, STATION, 0, OVERLAY, true, 0, 1);
  }

  // ----- its names are text

  lemma {:induction false} PlainNameIsText(name: Bytes, utf8: Bytes -> bool)
    requires 0 !in name && |name| <= NAME_BYTES && utf8(name)
    ensures IsText(name, utf8)
  {
    FirstNulIs(name, |name|);
    assert name[..|name|] == name;
  }

  lemma {:induction false} StationNamesAreText()
    ensures SpecNamesAreText(STATION, _ => true)
  {
    StationCounts();
    forall t: nat, i: nat, s: nat | NameIn(STATION, t, i, s).Some?
      ensures IsText(NameIn(STATION, t, i, s).value, _ => true)
    {
      PlainNameIsText(NameIn(STATION, t, i, s).value, _ => true);
    }
  }

  // ----- an identity that resolves

  function WidthOf(src: Source): nat {
    match src
    case ECaps | CtrlCap | AvailIdx => 4
    case TalkerSrc | TalkerCap | ListenSink | ListenCap | CurrentCfg => 2
    case Mac => 6
    case _ => 8
  }

  /** A zero value of the right width for every baked span. */
  const IDENTITY: Ident := map src: Source | !Unbaked(src) :: Zeros(WidthOf(src))

  ghost predicate WidthsMatch(overlays: seq<Overlay>) {
    forall k :: 0 <= k < |overlays| ==> overlays[k].nbytes == WidthOf(overlays[k].src)
  }

  lemma {:induction false} SpansMatch(e: nat, a: nat)
    ensures WidthsMatch(ReadOverlays(e, a))
  {
  }

  lemma {:induction false} ModelSpansMatch(m: Model, spec: Spec)
    requires IsModelOf(m, spec)
    ensures WidthsMatch(m.overlays)
  {
    SpansMatch(BaseOf(m.directory, ENTITY, 0).value, BaseOf(m.directory, AVB_INTERFACE, 0).value);
  }

  method BuildModelOf(spec: Spec) returns (m: Model)
    requires Buildable(spec)
    ensures IsModelOf(m, spec) && WidthsMatch(m.overlays)
  {
    var built := Build(spec);
    m := built.value;
    ModelSpansMatch(m, spec);
  }

  method BakeZeros(rom: Bytes, overlays: seq<Overlay>) returns (baked: Bytes)
    requires WidthsMatch(overlays)
    ensures Baked(rom, overlays, IDENTITY) == Ok(baked)
  {
    BakedIffResolved(rom, overlays, IDENTITY);
    var res := ApplyIdentity(rom, overlays, IDENTITY);
    baked := res.value;
  }

  /** What a built station has: tables for its dynamic ports, and an echo on both its channels. */
  ghost predicate IsEcho(m: Model) {
    m.dynmap.Some? && m.odmap.Some? && Echoes(m.odmap.value, 0) && Echoes(m.odmap.value, 1)
  }

  lemma {:induction false} ModelEchoes(m: Model)
    requires IsModelOf(m, STATION)
    ensures IsEcho(m)
  {
    assert STATION.portsIn[1] in STATION.portsIn && STATION.portsOut[0] in STATION.portsOut;
    DynMapMeaning(STATION);
    StationEchoes(m.odmap.value);
  }

  /** Building and baking the station succeeds, and what is built echoes. */
  method BuildStation() returns (m: Model, baked: Bytes)
    ensures IsModelOf(m, STATION) && Baked(m.rom, m.overlays, IDENTITY) == Ok(baked) && IsEcho(m)
  {
    StationIsBuildable();
    m := BuildModelOf(STATION);
    baked := BakeZeros(m.rom, m.overlays);
    ModelEchoes(m);
  }

  // ----- an image of its AUDIO_MAP passes the audit

  /** A 32-octet header, one index row at 32, and the descriptor at 48. */
  const HEADER: Bytes :=
    MAGIC + Word32(0x1_0000) + Word32(0x1_0000) + Word32(32) + Word32(0) + Word32(64) + Word32(0) + Word32(0xBEB8_B256)
  const INDEX: Bytes := [0, 0, 0, 0x17, 0, 1, 0, 16, 0, 0, 0, 48, 0xFF, 0xFF, 0, 16]
  const BODY: Bytes := [0, 0x17, 0, 0, 0, 8, 0, 1, 0, 0, 0, 0, 0, 0, 0, 0]
  const IMAGE: Bytes := HEADER + INDEX + BODY
  const PLACE: Slot := Slot(0, 0x17, 0, 48, 16, 16, 0xFFFF)

  lemma {:induction false} FrontWords()
    ensures |HEADER| == 32 && U32(HEADER, 0) == 0x4145_4D49 && U32(HEADER, 4) == 0x1_0000
    ensures U32(HEADER, 8) == 0x1_0000 && U32(HEADER, 12) == 32
  {
  }

  lemma {:induction false} BackWords()
    ensures |HEADER| == 32 && U32(HEADER, 16) == 0 && U32(HEADER, 20) == 64
    ensures U32(HEADER, 24) == 0 && U32(HEADER, 28) == 0xBEB8_B256
  {
  }

  lemma {:induction false} WordBehind(header: Bytes, tail: Bytes, at: nat)
    requires at + 4 <= |header|
    ensures U32(header + tail, at) == U32(header, at)
  {
  }

  lemma {:induction false} ImageHeader()
    ensures |IMAGE| == 64 && HeaderOk(IMAGE) && U32(IMAGE, 12) == 32 && U16(IMAGE, 8) == 1
  {
    FrontWords();
    BackWords();
    assert IMAGE == HEADER + (INDEX + BODY);
    assert HEADER[..4] == MAGIC;
    WordBehind(HEADER, INDEX + BODY, 0);
    WordBehind(HEADER, INDEX + BODY, 4);
    WordBehind(HEADER, INDEX + BODY, 8);
    WordBehind(HEADER, INDEX + BODY, 12);
    WordBehind(HEADER, INDEX + BODY, 16);
    WordBehind(HEADER, INDEX + BODY, 20);
    WordBehind(HEADER, INDEX + BODY, 24);
    WordBehind(HEADER, INDEX + BODY, 28);
  }

  lemma {:induction false} ImageSlots()
    ensures ImageAudit.Slots(IMAGE, 32, 1) == Ok([PLACE])
  {
    var row := IndexRow(0, 0x17, 1, 16, 48, 0xFFFF, 16);
    assert RowAt(IMAGE, 32) == Ok(row);
    assert ImageAudit.Slots(IMAGE, 32, 0) == Ok([]) && Count([], 0, 0x17) == 0;
    assert [] + RunSlots(row, 0, 1) == [PLACE];
    assert ImageAudit.Slots(IMAGE, 32, 1) == Ok([] + RunSlots(row, 0, 1));
  }

  lemma {:induction false} BodyIsTheMap()
    ensures IMAGE[48..64] == BODY == AudioMapBytes(0, ROWS)
  {
    assert RowRecords(ROWS)[..0] == [];
    assert Flat(RowRecords(ROWS)) == RowBytes(ROWS[0]);
  }

  lemma {:induction false} MapDecodes()
    ensures DescriptorFieldsOf(AUDIO_MAP, AudioMapBytes(0, ROWS)) == Ok(AudioMapFields(8, 1, ROWS))
  {
    AudioMapRoundTrip(0, ROWS);
    assert ROWS[..1] == ROWS && MaskedRows(ROWS) == ROWS;
  }

  lemma {:induction false} ImageAccepted()
    ensures ImageDecodes(IMAGE) && ImageAudit.Slots(IMAGE, 32, 1) == Ok([PLACE])
  {
    ImageHeader();
    ImageSlots();
    BodyIsTheMap();
    MapDecodes();
    assert DecodableAt(IMAGE, [PLACE], 0);
  }

  lemma {:induction false} PlaceIsDocumented(doc: seq<DocRow>)
    requires DocumentRow(doc, AUDIO_MAP, 0) == Some(AudioMapBytes(0, ROWS))
    ensures AllDocumented(doc, IMAGE, [PLACE])
  {
    BodyIsTheMap();
  }

  /** A map of any built model, answered by its document. */
  lemma {:induction false} MapIsDocumented(m: Model, spec: Spec, ident: Ident, baked: Bytes, doc: Doc, k: nat)
    requires IsModelOf(m, spec) && Baked(m.rom, m.overlays, ident) == Ok(baked)
    requires IsDocumentOf(doc, baked, m.directory, SlotMap(m.named)) && k < |spec.audioMaps|
    ensures DocumentRow(DocRows(doc), AUDIO_MAP, k) == Some(AudioMapBytes(k, spec.audioMaps[k]))
  {
    MapPresent(spec, k);
    ModelServesKept(m, spec, ident, baked, doc, AllDescriptors(spec).value,
                    Desc(AUDIO_MAP, k, AudioMapBytes(k, spec.audioMaps[k])));
  }

  /** Built, baked, documented and audited: the decoder's one row is the specification's mapping. */
  method AuditStation() returns (m: Model, baked: Bytes, doc: Doc, rows: seq<Row>)
    ensures Audited(m, STATION, IDENTITY, baked, doc, IMAGE, rows, [PLACE])
    ensures |rows| == 1 && rows[0].slot == PLACE && rows[0].fields == AudioMapFields(8, 1, ROWS)
  {
    m, baked := BuildStation();
    StationNamesAreText();
    DocumentableAsStated(m, STATION, IDENTITY, _ => true);
    BakedIffResolved(m.rom, m.overlays, IDENTITY);
    var res := ModelToDocument(m.rom, m.directory, m.overlays, m.named, IDENTITY, _ => true);
    doc := res.value;
    ImageHeader();
    ImageAccepted();
    var packed := PackedRows(IMAGE);
    rows := packed.value;
    MapIsDocumented(m, STATION, IDENTITY, baked, doc, 0);
    PlaceIsDocumented(DocRows(doc));
    BodyIsTheMap();
    MapDecodes();
    assert RowOf(IMAGE, rows, [PLACE], 0);
  }
}
