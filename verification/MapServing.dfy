/**
 Static AUDIO_MAP serving, end to end: the emitted tables, followed into the assembled ROM before
 or after identity baking, read the addressed port's own mappings.
 */
module MapServing {
  import opened AemSpec
  import opened Assemble
  import opened AudioMaps
  import opened BuildModel
  import opened Descriptors
  import opened DescriptorFields
  import opened Identity
  import opened Octets
  import opened TwoLevel
  import opened Wrappers

  /** The four fields the reader takes from the ROM. */
  function ReadRow(rom: Bytes, at: nat): MapRow
    requires at + 8 <= |rom|
  {
    MapRow(U16(rom, at), U16(rom, at + 2), U16(rom, at + 4), U16(rom, at + 6))
  }

  lemma {:induction false} ReadRowAgrees(rom: Bytes, at: nat, b: Bytes)
    requires at + 8 <= |rom| && |b| == 8 && rom[at..at + 8] == b
    ensures ReadRow(rom, at) == ReadRow(b, 0)
  {
    SliceOfSlice(rom, at, 8, 0, 2);
    SliceOfSlice(rom, at, 8, 2, 2);
    SliceOfSlice(rom, at, 8, 4, 2);
    SliceOfSlice(rom, at, 8, 6, 2);
    FieldIs16(rom, at, b[..2]);
    FieldIs16(rom, at + 2, b[2..4]);
    FieldIs16(rom, at + 4, b[4..6]);
    FieldIs16(rom, at + 6, b[6..]);
  }

  lemma {:induction false} RowInMap(index: nat, rows: seq<MapRow>, r: nat)
    requires r < |rows|
    ensures 8 + 8 * r + 8 <= |AudioMapBytes(index, rows)|
    ensures AudioMapBytes(index, rows)[8 + 8 * r..8 + 8 * r + 8] == RowBytes(rows[r])
  {
    var h, body := AudioMapHeader(index, |rows|), Flat(RowRecords(rows));
    FlatAt(RowRecords(rows), 8, r);
    assert (h + body)[8 + 8 * r..8 + 8 * r + 8] == body[8 * r..8 * r + 8];
  }

  /** A row read through a map's bytes, wherever they sit. */
  lemma {:induction false} RowInRom(rom: Bytes, base: nat, index: nat, rows: seq<MapRow>, r: nat)
    requires base + |AudioMapBytes(index, rows)| <= |rom| && r < |rows|
    requires rom[base..base + |AudioMapBytes(index, rows)|] == AudioMapBytes(index, rows)
    ensures 8 + 8 * r + 8 <= |AudioMapBytes(index, rows)|
    ensures ReadRow(rom, base + 8 + 8 * r) == MaskedRow(rows[r])
  {
    var img, at := AudioMapBytes(index, rows), base + 8 + 8 * r;
    RowInMap(index, rows, r);
    SliceOfSlice(rom, base, |img|, 8 + 8 * r, 8);
    ReadRowAgrees(rom, at, RowBytes(rows[r]));
    RowReads(rows[r]);
  }

  // ----- the ROM bounds every count

  ghost predicate SmallCounts(spec: Spec) {
    && Clusters(spec.portsIn) < 0x1_0000 && Clusters(spec.portsOut) < 0x1_0000
    && |spec.streamInputs| < 0x1_0000 && |spec.streamOutputs| < 0x1_0000
    && |spec.clockSources| < 0x1_0000 && |spec.audioMaps| < 0x1_0000
  }

  lemma {:induction false} CountsAreSmall(spec: Spec)
    requires AllDescriptors(spec).Ok? && FitsStore(Rom(AllDescriptors(spec).value))
    ensures SmallCounts(spec)
  {
    RomLength(spec);
  }

  // ----- identity baking leaves the other descriptors alone

  /** ENTITY at 0 and AVB_INTERFACE at a: the two descriptors identity baking writes. */
  ghost predicate IdentityAt(descs: seq<Desc>, e: Bytes, avb: Bytes, a: nat) {
    && |e| == 312 && |avb| == 102 && 312 <= a
    && Desc(ENTITY, 0, e) in descs && Located(descs, Desc(ENTITY, 0, e), 0)
    && Desc(AVB_INTERFACE, 0, avb) in descs && Located(descs, Desc(AVB_INTERFACE, 0, avb), a)
  }

  lemma {:induction false} BakingKeepsDescriptor(descs: seq<Desc>, e: Bytes, avb: Bytes, a: nat, ident: Ident,
                                                 baked: Bytes, d: Desc, base: nat)
    requires Addressable(Directory(descs)) && IdentityAt(descs, e, avb, a)
    requires Baked(Rom(descs), ReadOverlays(0, a), ident) == Ok(baked)
    requires d in descs && Located(descs, d, base) && d.typ != ENTITY && d.typ != AVB_INTERFACE
    ensures |baked| == |Rom(descs)| && baked[base..base + |d.img|] == d.img
  {
    LocatedApart(descs, Desc(ENTITY, 0, e), d, 0, base);
    LocatedApart(descs, Desc(AVB_INTERFACE, 0, avb), d, a, base);
    IdentityKeepsSpan(Rom(descs), 0, a, ident, base, base + |d.img|);
  }

  /** The octets at `at` are f. */
  ghost predicate HoldsField(rom: Bytes, at: nat, f: Bytes) {
    at + |f| <= |rom| && rom[at..at + |f|] == f
  }

  ghost predicate HoldsInBoth(rom: Bytes, baked: Bytes, at: nat, f: Bytes) {
    HoldsField(rom, at, f) && HoldsField(baked, at, f)
  }

  lemma {:induction false} FieldInside(rom: Bytes, base: nat, img: Bytes, at: nat, f: Bytes)
    requires base + |img| <= |rom| && rom[base..base + |img|] == img && HoldsField(img, at, f)
    ensures HoldsField(rom, base + at, f)
  {
    SliceOfSlice(rom, base, |img|, at, |f|);
  }

  /** The descriptor's bytes sit behind its own base, in the ROM and in the baked one. */
  ghost predicate KeptAt(dir: seq<Entry>, rom: Bytes, baked: Bytes, d: Desc) {
    && BaseOf(dir, d.typ, d.idx).Some?
    && var base := BaseOf(dir, d.typ, d.idx).value;
       Linear(dir, d.typ, d.idx) == Hit(base, |d.img|) && HoldsInBoth(rom, baked, base, d.img)
  }

  ghost predicate AllKept(descs: seq<Desc>, dir: seq<Entry>, rom: Bytes, baked: Bytes) {
    forall d :: d in descs && d.typ != ENTITY && d.typ != AVB_INTERFACE ==> KeptAt(dir, rom, baked, d)
  }

  /** Baking keeps every descriptor but ENTITY and AVB_INTERFACE. */
  lemma {:induction false} BakingKeepsTheOthers(descs: seq<Desc>, e: Bytes, avb: Bytes, a: nat, ident: Ident,
                                                baked: Bytes)
    requires Addressable(Directory(descs)) && IdentityAt(descs, e, avb, a)
    requires Baked(Rom(descs), ReadOverlays(0, a), ident) == Ok(baked)
    ensures AllKept(descs, Directory(descs), Rom(descs), baked)
  {
    forall d | d in descs && d.typ != ENTITY && d.typ != AVB_INTERFACE ensures KeptAt(Directory(descs), Rom(descs), baked, d) {
      var base, r := Locate(descs, d);
      BaseOfRow(Directory(descs), r);
      SpanHoldsImage(descs, r);
      BakingKeepsDescriptor(descs, e, avb, a, ident, baked, d, base);
    }
  }

  // ----- serving

  /** Row r, read at offset moff of a map that spans `length` bytes from addr. */
  ghost predicate RowServed(rom: Bytes, addr: nat, moff: nat, length: nat, r: nat, row: MapRow) {
    && moff + 8 * r + 8 <= length && addr + length <= |rom|
    && ReadRow(rom, addr + moff + 8 * r) == row
  }

  lemma {:induction false} MapRowServed(descs: seq<Desc>, dir: seq<Entry>, rom: Bytes, baked: Bytes, bm: nat,
                                        rows: seq<MapRow>, r: nat)
    requires AllKept(descs, dir, rom, baked) && Desc(AUDIO_MAP, bm, AudioMapBytes(bm, rows)) in descs && r < |rows|
    ensures var span := Linear(dir, AUDIO_MAP, bm);
            && span.Hit? && BaseOf(dir, AUDIO_MAP, bm) == Some(span.base)
            && RowServed(rom, span.base, 8, span.length, r, MaskedRow(rows[r]))
            && RowServed(baked, span.base, 8, span.length, r, MaskedRow(rows[r]))
  {
    var base := Linear(dir, AUDIO_MAP, bm).base;
    assert KeptAt(dir, rom, baked, Desc(AUDIO_MAP, bm, AudioMapBytes(bm, rows)));
    RowInRom(rom, base, bm, rows, r);
    RowInRom(baked, base, bm, rows, r);
  }

  /**
   The gate and the ROM size together bound every field but one, so masking to sixteen bits
   loses at most the stream channel, and loses nothing where no deviation is recorded.
   */
  lemma {:induction false} AcceptedRowIsExact(spec: Spec, side: Side, dir: seq<Entry>, k: nat, r: nat)
    requires SmallCounts(spec) && (side == InputSide(spec) || side == OutputSide(spec))
    requires Conforms(side, spec.audioMaps, dir) && k < |side.ports| && !side.ports[k].dynamic
    requires side.ports[k].baseMap < |spec.audioMaps| && r < |spec.audioMaps[side.ports[k].baseMap]|
    ensures var row := spec.audioMaps[side.ports[k].baseMap][r];
            && MaskedRow(row) == row.(streamChannel := Mask16(row.streamChannel))
            && (MaskedRow(row) == row <==> row.streamChannel < 0x1_0000)
            && (!PastWidest(side.streams, row) ==> MaskedRow(row) == row)
  {
    var p := side.ports[k];
    var rows := spec.audioMaps[p.baseMap];
    var row := rows[r];
    assert PortBounded(side, spec.audioMaps, dir, k);
    assert row in rows;
    PortWithinClusters(side.ports, k);
    WidestIsTheMaximum(side.streams[row.stream].formats);
    SmallFieldsSurvive(row);
    var w := Widest(side.streams[row.stream].formats).value;
    assert w < 0x400;
  }

  lemma {:induction false} SmallFieldsSurvive(row: MapRow)
    requires row.stream < 0x1_0000 && row.clusterOffset < 0x1_0000 && row.clusterChannel == 0
    ensures MaskedRow(row) == row.(streamChannel := Mask16(row.streamChannel))
    ensures MaskedRow(row) == row <==> row.streamChannel < 0x1_0000
  {
  }

  // ----- a built model, taken apart

  /** What the lemmas above need of a built model. */
  ghost predicate Parts(m: Model, spec: Spec, descs: seq<Desc>, e: Bytes, avb: Bytes, a: nat) {
    && m.rom == Rom(descs) && m.directory == Directory(descs) && Addressable(m.directory)
    && IdentityAt(descs, e, avb, a) && m.overlays == ReadOverlays(0, a)
    && SmallCounts(spec) && SMapOf(m.smap, spec, m.directory)
    && forall bm :: 0 <= bm < |spec.audioMaps| ==> MapIn(descs, spec, bm)
  }

  ghost predicate MapIn(descs: seq<Desc>, spec: Spec, bm: nat)
    requires bm < |spec.audioMaps|
  {
    Desc(AUDIO_MAP, bm, AudioMapBytes(bm, spec.audioMaps[bm])) in descs
  }

  lemma {:induction false} TakeApart(m: Model, spec: Spec) returns (descs: seq<Desc>, e: Bytes, avb: Bytes, a: nat)
    requires IsModelOf(m, spec)
    ensures Parts(m, spec, descs, e, avb, a)
    ensures AllDescriptors(spec) == Ok(descs)
  {
    descs := AllDescriptors(spec).value;
    e, avb := EntityBytes(spec.entity), AvbInterfaceBytes(spec.gptp, spec.names.avbInterface);
    a := IdentityDescriptorsLocated(spec);
    DescriptorsPresent(spec);
    assert descs[0] in descs;
    CountsAreSmall(spec);
    forall bm | 0 <= bm < |spec.audioMaps| ensures MapIn(descs, spec, bm) {
      MapPresent(spec, bm);
    }
  }

  /** Row r of the port's own base_map, read inside that AUDIO_MAP's span of either ROM. */
  ghost predicate ServedInBoth(rom: Bytes, baked: Bytes, dir: seq<Entry>, maps: seq<seq<MapRow>>, p: Port,
                               streams: seq<Stream>, addr: nat, moff: nat, r: nat)
  {
    && p.baseMap < |maps| && r < |maps[p.baseMap]|
    && Linear(dir, AUDIO_MAP, p.baseMap).Hit? && Linear(dir, AUDIO_MAP, p.baseMap).base == addr
    && var row, length := maps[p.baseMap][r], Linear(dir, AUDIO_MAP, p.baseMap).length;
       var served := row.(streamChannel := Mask16(row.streamChannel));
       && RowServed(rom, addr, moff, length, r, served)
       && RowServed(baked, addr, moff, length, r, served)
       && (!PastWidest(streams, row) ==> served == row)
  }

  /** A built model whose baking kept its descriptors. */
  ghost predicate Servable(m: Model, spec: Spec, descs: seq<Desc>, baked: Bytes) {
    && AllKept(descs, m.directory, m.rom, baked)
    && SmallCounts(spec) && SMapOf(m.smap, spec, m.directory)
    && forall bm :: 0 <= bm < |spec.audioMaps| ==> MapIn(descs, spec, bm)
  }

  lemma {:induction false} SideIsServed(m: Model, spec: Spec, descs: seq<Desc>, baked: Bytes, side: Side, addr: nat,
                                        rows: nat, moff: nat, k: nat, r: nat)
    requires Servable(m, spec, descs, baked)
    requires side == InputSide(spec) || side == OutputSide(spec)
    requires k < |side.ports| && !side.ports[k].dynamic
    requires IsEntryOf(addr, rows, moff, side, spec.audioMaps, m.directory, k) && r < rows
    ensures ServedInBoth(m.rom, baked, m.directory, spec.audioMaps, side.ports[k], side.streams, addr, moff, r)
  {
    var bm := side.ports[k].baseMap;
    assert MapIn(descs, spec, bm);
    MapRowServed(descs, m.directory, m.rom, baked, bm, spec.audioMaps[bm], r);
    AcceptedRowIsExact(spec, side, m.directory, k, r);
  }

  /** Every mapping of static port k, through its own table entries. */
  ghost predicate PortServedInBoth(m: Model, baked: Bytes, maps: seq<seq<MapRow>>, ports: seq<Port>,
                                   streams: seq<Stream>, addr: seq<nat>, rows: seq<nat>, moff: seq<nat>, k: nat)
    requires k < |ports|
  {
    && k < |addr| && k < |rows| && k < |moff|
    && if ports[k].dynamic then rows[k] == 0
       else
         && ports[k].baseMap < |maps| && rows[k] == |maps[ports[k].baseMap]|
         && forall r :: 0 <= r < rows[k] ==>
              ServedInBoth(m.rom, baked, m.directory, maps, ports[k], streams, addr[k], moff[k], r)
  }

  lemma {:induction false} PartsServePort(m: Model, spec: Spec, descs: seq<Desc>, baked: Bytes, side: Side,
                                          addr: seq<nat>, rows: seq<nat>, moff: seq<nat>, k: nat)
    requires Servable(m, spec, descs, baked)
    requires (side == InputSide(spec) || side == OutputSide(spec)) && k < |side.ports|
    requires Serves(addr, rows, moff, side, spec.audioMaps, m.directory, k)
    ensures PortServedInBoth(m, baked, spec.audioMaps, side.ports, side.streams, addr, rows, moff, k)
  {
    if !side.ports[k].dynamic {
      forall r | 0 <= r < rows[k]
        ensures ServedInBoth(m.rom, baked, m.directory, spec.audioMaps, side.ports[k], side.streams, addr[k], moff[k], r)
      {
        SideIsServed(m, spec, descs, baked, side, addr[k], rows[k], moff[k], k, r);
      }
    }
  }

  /**
   Every static mapping of every built model is served: for each port, the emitted address, count
   and offset read, in the ROM before or after baking, exactly that port's own rows.
   */
  ghost predicate AllMapsServed(m: Model, spec: Spec, baked: Bytes) {
    && (forall k :: 0 <= k < |spec.portsIn| ==>
          PortServedInBoth(m, baked, spec.audioMaps, spec.portsIn, spec.streamInputs,
                           m.smap.inAddr, m.smap.inRows, m.smap.inMoff, k))
    && (forall k :: 0 <= k < |spec.portsOut| ==>
          PortServedInBoth(m, baked, spec.audioMaps, spec.portsOut, spec.streamOutputs,
                           m.smap.outAddr, m.smap.outRows, m.smap.outMoff, k))
  }

  lemma {:induction false} PartsAreServed(m: Model, spec: Spec, descs: seq<Desc>, baked: Bytes)
    requires Servable(m, spec, descs, baked)
    ensures AllMapsServed(m, spec, baked)
  {
    var t := m.smap;
    forall k | 0 <= k < |spec.portsIn|
      ensures PortServedInBoth(m, baked, spec.audioMaps, spec.portsIn, spec.streamInputs, t.inAddr, t.inRows, t.inMoff, k)
    {
      assert Serves(t.inAddr, t.inRows, t.inMoff, InputSide(spec), spec.audioMaps, m.directory, k);
      PartsServePort(m, spec, descs, baked, InputSide(spec), t.inAddr, t.inRows, t.inMoff, k);
    }
    forall k | 0 <= k < |spec.portsOut|
      ensures PortServedInBoth(m, baked, spec.audioMaps, spec.portsOut, spec.streamOutputs, t.outAddr, t.outRows, t.outMoff, k)
    {
      assert Serves(t.outAddr, t.outRows, t.outMoff, OutputSide(spec), spec.audioMaps, m.directory, k);
      PartsServePort(m, spec, descs, baked, OutputSide(spec), t.outAddr, t.outRows, t.outMoff, k);
    }
  }

  lemma {:induction false} MapsAreServed(m: Model, spec: Spec, ident: Ident, baked: Bytes)
    requires IsModelOf(m, spec) && Baked(m.rom, m.overlays, ident) == Ok(baked)
    ensures AllMapsServed(m, spec, baked)
  {
    var descs, e, avb, a := TakeApart(m, spec);
    BakingKeepsTheOthers(descs, e, avb, a, ident, baked);
    PartsAreServed(m, spec, descs, baked);
  }
}
