/**
 Assembly of the descriptor ROM (avdecc/aem_assemble.py): the append order of the descriptors,
 the flat image and its directory, and the address tables derived from the directory.
 */
module Assemble {
  import opened AemSpec
  import opened Descriptors
  import opened DescriptorFields
  import opened Octets
  import opened TwoLevel
  import opened Wrappers

  datatype Desc = Desc(typ: nat, idx: nat, img: Bytes)

  // ----- the descriptors, in append order

  /** A dynamic port declares no static map, whatever its spec says. */
  function PortBounds(p: Port): PortMapBounds {
    PortMapBounds(p.clusters, p.baseCluster, if p.dynamic then 0 else p.maps, if p.dynamic then 0 else p.baseMap)
  }

  function StreamImage(dtype: nat, index: nat, s: Stream): Result<Bytes> {
    if dtype == STREAM_INPUT then StreamBytes(dtype, index, s.name, 3, s.formats, s.buffer)
    else StreamBytes(dtype, index, s.name, if s.kind == Crf then 3 else 2, s.formats, 0)
  }

  /** What `struct.pack` and `formats[0]` demand of a spec's numbers. */
  ghost predicate Packable(spec: Spec) {
    && IsU32(spec.currentRate) && AllU32(spec.rates)
    && (forall s :: s in spec.streamInputs ==> s.formats != [] && IsU32(s.buffer))
    && (forall s :: s in spec.streamOutputs ==> s.formats != [])
  }

  function StreamDescs(dtype: nat, ss: seq<Stream>): Result<seq<Desc>> {
    if ss == [] then Ok([])
    else
      var n := |ss| - 1;
      var rest :- StreamDescs(dtype, ss[..n]);
      var img :- StreamImage(dtype, n, ss[n]);
      Ok(rest + [Desc(dtype, n, img)])
  }

  function ClockSourceDescs(cs: seq<ClockSource>): seq<Desc> {
    seq(|cs|, k requires 0 <= k < |cs| =>
      Desc(CLOCK_SOURCE, k, ClockSourceBytes(k, cs[k].name, cs[k].csType, cs[k].locType, cs[k].locIndex)))
  }

  /** The AUDIO_UNIT of a specification. */
  function UnitBytes(spec: Spec): Result<Bytes> {
    AudioUnitBytes(spec.rates, spec.currentRate, |spec.portsIn|, |spec.portsOut|, spec.names.audioUnit)
  }

  function EntityDescriptors(spec: Spec): Result<seq<Desc>> {
    var si, so, nClk := spec.streamInputs, spec.streamOutputs, |spec.clockSources|;
    var unit :- UnitBytes(spec);
    var ins :- StreamDescs(STREAM_INPUT, si);
    var outs :- StreamDescs(STREAM_OUTPUT, so);
    Ok([Desc(ENTITY, 0, EntityBytes(spec.entity))]
       + [Desc(CONFIGURATION, 0, ConfigurationBytes(|si|, |so|, nClk, spec.names.configuration))]
       + [Desc(AUDIO_UNIT, 0, unit)]
       + ins + outs
       + [Desc(AVB_INTERFACE, 0, AvbInterfaceBytes(spec.gptp, spec.names.avbInterface))]
       + ClockSourceDescs(spec.clockSources)
       + [Desc(CLOCK_DOMAIN, 0, ClockDomainBytes(nClk, spec.names.clockDomain))]
       + [Desc(CONTROL, 0, ControlIdentifyBytes(spec.names.controlIdentify))]
       + [Desc(LOCALE, 0, LocaleBytes(spec.locale))]
       + [Desc(STRINGS, 0, StringsBytes(spec.entity.name, spec.ratesString, spec.entity.vendor))])
  }

  function PortDescs(dtype: nat, ports: seq<Port>): seq<Desc> {
    seq(|ports|, k requires 0 <= k < |ports| =>
      Desc(dtype, k, StreamPortBytes(dtype, k, if dtype == STREAM_PORT_INPUT then 1 else 0, PortBounds(ports[k]))))
  }

  const INPUT_NAME: Bytes := [0x49, 0x6E, 0x70, 0x75, 0x74]
  const OUTPUT_NAME: Bytes := [0x4F, 0x75, 0x74, 0x70, 0x75, 0x74]

  /** An absent name list falls back to one literal per cluster. */
  function NamesOr(names: seq<Bytes>, literal: Bytes, n: nat): seq<Bytes> {
    if names == [] then seq(n, _ => literal) else names
  }

  function ClusterNames(spec: Spec): (seq<Bytes>, seq<Bytes>) {
    (NamesOr(spec.clusterNamesIn, INPUT_NAME, Clusters(spec.portsIn)),
     NamesOr(spec.clusterNamesOut, OUTPUT_NAME, Clusters(spec.portsOut)))
  }

  predicate ClustersNamed(spec: Spec) {
    |ClusterNames(spec).0| == Clusters(spec.portsIn) && |ClusterNames(spec).1| == Clusters(spec.portsOut)
  }

  /** Input clusters first, output clusters numbered on from them. */
  function ClusterDescs(spec: Spec): seq<Desc>
    requires ClustersNamed(spec)
  {
    var nIn, nOut := Clusters(spec.portsIn), Clusters(spec.portsOut);
    var (namesIn, namesOut) := ClusterNames(spec);
    seq(nIn, k requires 0 <= k < nIn => Desc(AUDIO_CLUSTER, k, AudioClusterBytes(k, namesIn[k], NO_STRING)))
    + seq(nOut, k requires 0 <= k < nOut => Desc(AUDIO_CLUSTER, nIn + k, AudioClusterBytes(nIn + k, namesOut[k], AUDIO_UNIT)))
  }

  function MapDescs(maps: seq<seq<MapRow>>): seq<Desc> {
    seq(|maps|, k requires 0 <= k < |maps| => Desc(AUDIO_MAP, k, AudioMapBytes(k, maps[k])))
  }

  function PortDescriptors(spec: Spec): Result<seq<Desc>> {
    if !ClustersNamed(spec) then Err
    else Ok(PortDescs(STREAM_PORT_INPUT, spec.portsIn) + PortDescs(STREAM_PORT_OUTPUT, spec.portsOut)
            + ClusterDescs(spec) + MapDescs(spec.audioMaps))
  }

  // ----- the flat image

  function Rom(descs: seq<Desc>): Bytes {
    if descs == [] then [] else Rom(descs[..|descs| - 1]) + descs[|descs| - 1].img
  }

  function Directory(descs: seq<Desc>): (dir: seq<Entry>)
    ensures |dir| == |descs|
  {
    if descs == [] then []
    else
      var n := |descs| - 1;
      Directory(descs[..n]) + [Entry(descs[n].typ, descs[n].idx, |Rom(descs[..n])|, |descs[n].img|)]
  }

  /** The MVU scratch tail must still be addressable by sixteen bits. */
  predicate FitsStore(rom: Bytes) {
    |rom| + 64 <= 0x10000
  }

  method RomImage(descs: seq<Desc>) returns (res: Result<(Bytes, seq<Entry>)>)
    ensures res == if FitsStore(Rom(descs)) then Ok((Rom(descs), Directory(descs))) else Err
  {
    var rom, dir := [], [];
    for r := 0 to |descs|
      invariant rom == Rom(descs[..r]) && dir == Directory(descs[..r])
    {
      assert descs[..r + 1][..r] == descs[..r];
      dir := dir + [Entry(descs[r].typ, descs[r].idx, |rom|, |descs[r].img|)];
      rom := rom + descs[r].img;
    }
    assert descs[..|descs|] == descs;
    return if FitsStore(rom) then Ok((rom, dir)) else Err;
  }

  ghost predicate SpanOf(descs: seq<Desc>, rom: Bytes, dir: seq<Entry>, r: nat)
    requires r < |descs| == |dir|
  {
    var e := dir[r];
    && e.typ == descs[r].typ && e.idx == descs[r].idx && e.length == |descs[r].img|
    && e.base + e.length <= |rom| && rom[e.base..e.base + e.length] == descs[r].img
  }

  ghost predicate Adjacent(dir: seq<Entry>, r: nat)
    requires 0 < r < |dir|
  {
    dir[r].base == dir[r - 1].base + dir[r - 1].length
  }

  lemma {:induction false} SpanHoldsImage(descs: seq<Desc>, r: nat)
    requires r < |descs|
    ensures SpanOf(descs, Rom(descs), Directory(descs), r)
  {
    var n := |descs| - 1;
    if r < n {
      SpanHoldsImage(descs[..n], r);
      assert Directory(descs)[r] == Directory(descs[..n])[r];
      var e := Directory(descs)[r];
      assert Rom(descs)[e.base..e.base + e.length] == Rom(descs[..n])[e.base..e.base + e.length];
    }
  }

  lemma {:induction false} SpansHoldImages(descs: seq<Desc>)
    ensures forall r :: 0 <= r < |descs| ==> SpanOf(descs, Rom(descs), Directory(descs), r)
  {
    forall r | 0 <= r < |descs| ensures SpanOf(descs, Rom(descs), Directory(descs), r) {
      SpanHoldsImage(descs, r);
    }
  }

  lemma {:induction false} SpansAreAdjacent(descs: seq<Desc>)
    ensures forall r :: 0 < r < |descs| ==> Adjacent(Directory(descs), r)
    ensures |descs| > 0 ==> var last := Directory(descs)[|descs| - 1]; last.base + last.length == |Rom(descs)|
    ensures |descs| > 0 ==> Directory(descs)[0].base == 0
  {
    if descs != [] {
      var n := |descs| - 1;
      SpansAreAdjacent(descs[..n]);
      forall r | 0 < r < |descs| ensures Adjacent(Directory(descs), r) {
        if r < n {
          assert Adjacent(Directory(descs[..n]), r);
        }
      }
    }
  }

  /**
   The directory tiles the ROM: the first span starts at 0, each other one where its predecessor
   ends, the last ends with the ROM, and each slice is that descriptor's bytes.
   */
  ghost predicate Tiles(descs: seq<Desc>, rom: Bytes, dir: seq<Entry>) {
    && |dir| == |descs|
    && (forall r :: 0 <= r < |descs| ==> SpanOf(descs, rom, dir, r))
    && (forall r :: 0 < r < |descs| ==> Adjacent(dir, r))
    && (|descs| > 0 ==> dir[0].base == 0 && dir[|dir| - 1].base + dir[|dir| - 1].length == |rom|)
  }

  lemma {:induction false} DirectoryTilesRom(descs: seq<Desc>)
    ensures Tiles(descs, Rom(descs), Directory(descs))
  {
    SpansHoldImages(descs);
    SpansAreAdjacent(descs);
  }

  /** Two different rows never share a byte. */
  lemma {:induction false} SpansAreOrdered(descs: seq<Desc>, a: nat, b: nat)
    requires a < b < |descs|
    ensures Directory(descs)[a].base + Directory(descs)[a].length <= Directory(descs)[b].base
  {
    SpansAreAdjacent(descs);
    assert Adjacent(Directory(descs), b);
    if a < b - 1 {
      SpansAreOrdered(descs, a, b - 1);
    }
  }

  // ----- the append order gives one zero-based run per type

  ghost predicate IsGroup(group: seq<Desc>, t: nat) {
    forall k :: 0 <= k < |group| ==> group[k].typ == t && group[k].idx == k
  }

  /** The runs so far are zero-based and contiguous, and only use types from `types`. */
  ghost predicate LaidOut(descs: seq<Desc>, types: set<nat>) {
    && OneRunPerType(Directory(descs)) && ZeroBasedAscending(Directory(descs))
    && forall d :: d in descs ==> d.typ in types
  }

  lemma {:induction false} AppendGroup(descs: seq<Desc>, group: seq<Desc>, t: nat, types: set<nat>)
    requires LaidOut(descs, types) && IsGroup(group, t) && t !in types
    ensures LaidOut(descs + group, types + {t})
  {
    var all, n := descs + group, |descs|;
    var dir, next := Directory(descs), Directory(all);
    SpansHoldImages(descs);
    SpansHoldImages(all);
    forall r | 0 <= r < |all| ensures next[r].typ == all[r].typ && next[r].idx == all[r].idx
                                      && (r < n ==> dir[r].typ == descs[r].typ && dir[r].idx == descs[r].idx) {
      assert SpanOf(all, Rom(all), next, r);
      if r < n {
        assert SpanOf(descs, Rom(descs), dir, r);
        assert descs[r] in descs;
      }
    }
    assert forall r :: 0 <= r < n ==> descs[r] in descs;
    forall r | 0 <= r < |all| ensures Continues(next, r) {
      if r < n {
        assert Continues(dir, r);
      }
    }
    forall a, b, c | 0 <= a < b < c < |all| ensures NotSplit(next, a, b, c) {
      if c < n {
        assert NotSplit(dir, a, b, c);
      }
    }
  }

  lemma {:induction false} StreamDescsGroup(dtype: nat, ss: seq<Stream>)
    requires StreamDescs(dtype, ss).Ok?
    ensures |StreamDescs(dtype, ss).value| == |ss| && IsGroup(StreamDescs(dtype, ss).value, dtype)
    ensures forall k :: 0 <= k < |ss| ==> StreamImage(dtype, k, ss[k]) == Ok(StreamDescs(dtype, ss).value[k].img)
  {
    if ss != [] {
      StreamDescsGroup(dtype, ss[..|ss| - 1]);
    }
  }

  /** Every descriptor of an accepted specification, in append order. */
  function AllDescriptors(spec: Spec): Result<seq<Desc>> {
    var front :- EntityDescriptors(spec);
    var ports :- PortDescriptors(spec);
    Ok(front + ports)
  }

  lemma {:induction false} AppendFour(front: seq<Desc>, types: set<nat>, g1: seq<Desc>, t1: nat, g2: seq<Desc>, t2: nat,
                                      g3: seq<Desc>, t3: nat, g4: seq<Desc>, t4: nat)
    requires LaidOut(front, types) && IsGroup(g1, t1) && IsGroup(g2, t2) && IsGroup(g3, t3) && IsGroup(g4, t4)
    requires types !! {t1, t2, t3, t4} && t1 != t2 && t1 != t3 && t1 != t4 && t2 != t3 && t2 != t4 && t3 != t4
    ensures LaidOut(front + g1 + g2 + g3 + g4, types + {t1, t2, t3, t4})
  {
    AppendGroup(front, g1, t1, types);
    AppendGroup(front + g1, g2, t2, types + {t1});
    AppendGroup(front + g1 + g2, g3, t3, types + {t1} + {t2});
    AppendGroup(front + g1 + g2 + g3, g4, t4, types + {t1} + {t2} + {t3});
    assert types + {t1} + {t2} + {t3} + {t4} == types + {t1, t2, t3, t4};
  }

  lemma {:induction false} AppendThree(front: seq<Desc>, types: set<nat>, g1: seq<Desc>, t1: nat, g2: seq<Desc>,
                                       t2: nat, g3: seq<Desc>, t3: nat)
    requires LaidOut(front, types) && IsGroup(g1, t1) && IsGroup(g2, t2) && IsGroup(g3, t3)
    requires types !! {t1, t2, t3} && t1 != t2 && t1 != t3 && t2 != t3
    ensures LaidOut(front + g1 + g2 + g3, types + {t1, t2, t3})
  {
    AppendGroup(front, g1, t1, types);
    AppendGroup(front + g1, g2, t2, types + {t1});
    AppendGroup(front + g1 + g2, g3, t3, types + {t1} + {t2});
    assert types + {t1} + {t2} + {t3} == types + {t1, t2, t3};
  }

  /** ENTITY through STREAM_INPUT. */
  lemma {:induction false} OpeningIsLaidOut(entity: Bytes, config: Bytes, unit: Bytes, ins: seq<Desc>)
    requires IsGroup(ins, STREAM_INPUT)
    ensures LaidOut([Desc(ENTITY, 0, entity)] + [Desc(CONFIGURATION, 0, config)] + [Desc(AUDIO_UNIT, 0, unit)] + ins,
                    {0, 1, 2, 5})
  {
    var e := [Desc(ENTITY, 0, entity)];
    AppendFour([], {}, e, ENTITY, [Desc(CONFIGURATION, 0, config)], CONFIGURATION,
               [Desc(AUDIO_UNIT, 0, unit)], AUDIO_UNIT, ins, STREAM_INPUT);
    assert [] + e == e;
    assert {} + {0, 1, 2, 5} == {0, 1, 2, 5};
  }

  lemma {:induction false} MiddleIsLaidOut(front: seq<Desc>, outs: seq<Desc>, avb: Bytes, clocks: seq<Desc>,
                                           domain: Bytes)
    requires LaidOut(front, {0, 1, 2, 5}) && IsGroup(outs, STREAM_OUTPUT) && IsGroup(clocks, CLOCK_SOURCE)
    ensures LaidOut(front + outs + [Desc(AVB_INTERFACE, 0, avb)] + clocks + [Desc(CLOCK_DOMAIN, 0, domain)],
                    {0, 1, 2, 5, 6, 9, 10, 36})
  {
    AppendFour(front, {0, 1, 2, 5}, outs, STREAM_OUTPUT, [Desc(AVB_INTERFACE, 0, avb)], AVB_INTERFACE,
               clocks, CLOCK_SOURCE, [Desc(CLOCK_DOMAIN, 0, domain)], CLOCK_DOMAIN);
    assert {0, 1, 2, 5} + {6, 9, 10, 36} == {0, 1, 2, 5, 6, 9, 10, 36};
  }

  lemma {:induction false} ClosingIsLaidOut(front: seq<Desc>, control: Bytes, locale: Bytes, strings: Bytes)
    requires LaidOut(front, {0, 1, 2, 5, 6, 9, 10, 36})
    ensures LaidOut(front + [Desc(CONTROL, 0, control)] + [Desc(LOCALE, 0, locale)] + [Desc(STRINGS, 0, strings)],
                    {0, 1, 2, 5, 6, 9, 10, 36, 26, 12, 13})
  {
    AppendThree(front, {0, 1, 2, 5, 6, 9, 10, 36}, [Desc(CONTROL, 0, control)], CONTROL,
                [Desc(LOCALE, 0, locale)], LOCALE, [Desc(STRINGS, 0, strings)], STRINGS);
    assert {0, 1, 2, 5, 6, 9, 10, 36} + {26, 12, 13} == {0, 1, 2, 5, 6, 9, 10, 36, 26, 12, 13};
  }

  lemma {:induction false} EntityDescriptorsAreLaidOut(spec: Spec)
    requires EntityDescriptors(spec).Ok?
    ensures LaidOut(EntityDescriptors(spec).value, {0, 1, 2, 5, 6, 9, 10, 36, 26, 12, 13})
    ensures EntityDescriptors(spec).value != []
  {
    var si, so, nClk := spec.streamInputs, spec.streamOutputs, |spec.clockSources|;
    var unit := UnitBytes(spec).value;
    var ins, outs := StreamDescs(STREAM_INPUT, si).value, StreamDescs(STREAM_OUTPUT, so).value;
    StreamDescsGroup(STREAM_INPUT, si);
    StreamDescsGroup(STREAM_OUTPUT, so);
    var entity, config := EntityBytes(spec.entity), ConfigurationBytes(|si|, |so|, nClk, spec.names.configuration);
    OpeningIsLaidOut(entity, config, unit, ins);
    var opening := [Desc(ENTITY, 0, entity)] + [Desc(CONFIGURATION, 0, config)] + [Desc(AUDIO_UNIT, 0, unit)] + ins;
    var avb, domain := AvbInterfaceBytes(spec.gptp, spec.names.avbInterface), ClockDomainBytes(nClk, spec.names.clockDomain);
    MiddleIsLaidOut(opening, outs, avb, ClockSourceDescs(spec.clockSources), domain);
    ClosingIsLaidOut(opening + outs + [Desc(AVB_INTERFACE, 0, avb)] + ClockSourceDescs(spec.clockSources)
                     + [Desc(CLOCK_DOMAIN, 0, domain)],
                     ControlIdentifyBytes(spec.names.controlIdentify), LocaleBytes(spec.locale),
                     StringsBytes(spec.entity.name, spec.ratesString, spec.entity.vendor));
  }

  lemma {:induction false} LowTypesAreAddressable(descs: seq<Desc>, types: set<nat>)
    requires LaidOut(descs, types) && descs != [] && forall t :: t in types ==> t < 256
    ensures Addressable(Directory(descs))
  {
    SpansHoldImages(descs);
    forall r | 0 <= r < |descs| ensures Directory(descs)[r].typ < 256 {
      assert SpanOf(descs, Rom(descs), Directory(descs), r);
      assert descs[r] in descs;
    }
  }

  lemma {:induction false} PortsAreLaidOut(front: seq<Desc>, ins: seq<Desc>, outs: seq<Desc>, clusters: seq<Desc>,
                                           maps: seq<Desc>)
    requires LaidOut(front, {0, 1, 2, 5, 6, 9, 10, 36, 26, 12, 13}) && front != []
    requires IsGroup(ins, STREAM_PORT_INPUT) && IsGroup(outs, STREAM_PORT_OUTPUT)
    requires IsGroup(clusters, AUDIO_CLUSTER) && IsGroup(maps, AUDIO_MAP)
    ensures Addressable(Directory(front + (ins + outs + clusters + maps)))
  {
    AppendFour(front, {0, 1, 2, 5, 6, 9, 10, 36, 26, 12, 13}, ins, STREAM_PORT_INPUT, outs, STREAM_PORT_OUTPUT,
               clusters, AUDIO_CLUSTER, maps, AUDIO_MAP);
    var all := front + ins + outs + clusters + maps;
    assert all == front + (ins + outs + clusters + maps);
    LowTypesAreAddressable(all, {0, 1, 2, 5, 6, 9, 10, 36, 26, 12, 13} + {14, 15, 20, 23});
  }

  lemma {:induction false} AppendPorts(spec: Spec, front: seq<Desc>)
    requires LaidOut(front, {0, 1, 2, 5, 6, 9, 10, 36, 26, 12, 13}) && front != [] && ClustersNamed(spec)
    ensures Addressable(Directory(front + PortDescriptors(spec).value))
  {
    PortsAreLaidOut(front, PortDescs(STREAM_PORT_INPUT, spec.portsIn), PortDescs(STREAM_PORT_OUTPUT, spec.portsOut),
                    ClusterDescs(spec), MapDescs(spec.audioMaps));
  }

  /** For every specification the append order is one contiguous, zero-based, ascending run per type. */
  lemma {:induction false} AppendOrderIsAddressable(spec: Spec)
    requires AllDescriptors(spec).Ok?
    ensures Addressable(Directory(AllDescriptors(spec).value))
  {
    EntityDescriptorsAreLaidOut(spec);
    AppendPorts(spec, EntityDescriptors(spec).value);
  }

  // ----- looking a descriptor up

  /** `base_of`: the first row carrying the key, or StopIteration. */
  function BaseOf(dir: seq<Entry>, t: nat, i: nat): Option<nat> {
    if dir == [] then None
    else if dir[0].typ == t && dir[0].idx == i then Some(dir[0].base)
    else BaseOf(dir[1..], t, i)
  }

  lemma {:induction false} IndexGrows(dir: seq<Entry>, a: nat, b: nat)
    requires OneRunPerType(dir) && ZeroBasedAscending(dir)
    requires a < b < |dir| && dir[a].typ == dir[b].typ
    ensures dir[a].idx < dir[b].idx
  {
    assert Continues(dir, b);
    if a < b - 1 {
      assert NotSplit(dir, a, b - 1, b);
      IndexGrows(dir, a, b - 1);
    }
  }

  /** No two rows of an addressable directory carry the same key. */
  lemma {:induction false} KeysAreUnique(dir: seq<Entry>, a: nat, b: nat)
    requires Addressable(dir) && a < |dir| && b < |dir|
    requires dir[a].typ == dir[b].typ && dir[a].idx == dir[b].idx
    ensures a == b
  {
    if a < b {
      IndexGrows(dir, a, b);
    } else if b < a {
      IndexGrows(dir, b, a);
    }
  }

  lemma {:induction false} BaseOfFirst(dir: seq<Entry>, r: nat)
    requires r < |dir|
    requires forall q :: 0 <= q < r ==> !(dir[q].typ == dir[r].typ && dir[q].idx == dir[r].idx)
    ensures BaseOf(dir, dir[r].typ, dir[r].idx) == Some(dir[r].base)
  {
    if r > 0 {
      assert dir[1..][r - 1] == dir[r];
      BaseOfFirst(dir[1..], r - 1);
    }
  }

  lemma {:induction false} BaseOfRow(dir: seq<Entry>, r: nat)
    requires Addressable(dir) && r < |dir|
    ensures BaseOf(dir, dir[r].typ, dir[r].idx) == Some(dir[r].base)
    ensures Linear(dir, dir[r].typ, dir[r].idx) == Hit(dir[r].base, dir[r].length)
  {
    forall q | 0 <= q < |dir| && dir[q].typ == dir[r].typ && dir[q].idx == dir[r].idx ensures q == r {
      KeysAreUnique(dir, q, r);
    }
    BaseOfFirst(dir, r);
    LinearMeaning(dir, dir[r].typ, dir[r].idx);
  }

  lemma {:induction false} BaseOfMeaning(dir: seq<Entry>, t: nat, i: nat)
    ensures BaseOf(dir, t, i) == None <==> forall r :: 0 <= r < |dir| ==> !(dir[r].typ == t && dir[r].idx == i)
  {
    if dir != [] {
      BaseOfMeaning(dir[1..], t, i);
      assert forall r :: 0 < r < |dir| ==> dir[r] == dir[1..][r - 1];
    }
  }

  // ----- the length of the ROM

  /** All formats of a stream list. */
  function FormatCount(ss: seq<Stream>): nat {
    if ss == [] then 0 else FormatCount(ss[..|ss| - 1]) + |ss[|ss| - 1].formats|
  }

  function MappingCount(maps: seq<seq<MapRow>>): nat {
    if maps == [] then 0 else MappingCount(maps[..|maps| - 1]) + |maps[|maps| - 1]|
  }

  /** The ROM's octets, from the counts of the specification. */
  function RomSize(spec: Spec): nat {
    1377 + 4 * |spec.rates|
    + 138 * (|spec.streamInputs| + |spec.streamOutputs|)
    + 8 * (FormatCount(spec.streamInputs) + FormatCount(spec.streamOutputs))
    + 88 * |spec.clockSources|
    + 20 * (|spec.portsIn| + |spec.portsOut|)
    + 90 * (Clusters(spec.portsIn) + Clusters(spec.portsOut))
    + 8 * (|spec.audioMaps| + MappingCount(spec.audioMaps))
  }

  lemma {:induction false} RomConcat(a: seq<Desc>, b: seq<Desc>)
    ensures |Rom(a + b)| == |Rom(a)| + |Rom(b)|
  {
    if b == [] {
      assert a + b == a;
    } else {
      var n := |b| - 1;
      assert (a + b)[..|a| + n] == a + b[..n];
      RomConcat(a, b[..n]);
    }
  }

  lemma {:induction false} RomOfOne(d: Desc)
    ensures |Rom([d])| == |d.img|
  {
    assert [d][..0] == [];
  }

  ghost predicate AllOfLength(descs: seq<Desc>, w: nat) {
    forall d :: d in descs ==> |d.img| == w
  }

  lemma {:induction false} RomOfEqual(descs: seq<Desc>, w: nat)
    requires AllOfLength(descs, w)
    ensures |Rom(descs)| == w * |descs|
  {
    if descs != [] {
      var n := |descs| - 1;
      assert descs[n] in descs;
      RomOfEqual(descs[..n], w);
      assert w * (n + 1) == w * n + w;
    }
  }

  lemma {:induction false} StreamImageLength(dtype: nat, k: nat, s: Stream)
    requires StreamImage(dtype, k, s).Ok?
    ensures |StreamImage(dtype, k, s).value| == 138 + 8 * |s.formats|
  {
    if dtype == STREAM_INPUT {
      StreamLength(dtype, k, s.name, 3, s.formats, s.buffer);
    } else {
      StreamLength(dtype, k, s.name, if s.kind == Crf then 3 else 2, s.formats, 0);
    }
  }

  lemma {:induction false} RomOfStreams(dtype: nat, ss: seq<Stream>)
    requires StreamDescs(dtype, ss).Ok?
    ensures |Rom(StreamDescs(dtype, ss).value)| == 138 * |ss| + 8 * FormatCount(ss)
  {
    if ss != [] {
      var n := |ss| - 1;
      RomOfStreams(dtype, ss[..n]);
      StreamImageLength(dtype, n, ss[n]);
      RomConcat(StreamDescs(dtype, ss[..n]).value, [Desc(dtype, n, StreamImage(dtype, n, ss[n]).value)]);
      RomOfOne(Desc(dtype, n, StreamImage(dtype, n, ss[n]).value));
    }
  }

  lemma {:induction false} RomOfMaps(maps: seq<seq<MapRow>>)
    ensures |Rom(MapDescs(maps))| == 8 * (|maps| + MappingCount(maps))
  {
    if maps != [] {
      var n := |maps| - 1;
      RomOfMaps(maps[..n]);
      assert MapDescs(maps) == MapDescs(maps[..n]) + [Desc(AUDIO_MAP, n, AudioMapBytes(n, maps[n]))];
      RomConcat(MapDescs(maps[..n]), [Desc(AUDIO_MAP, n, AudioMapBytes(n, maps[n]))]);
      RomOfOne(Desc(AUDIO_MAP, n, AudioMapBytes(n, maps[n])));
      AudioMapLength(n, maps[n]);
    }
  }

  lemma {:induction false} RomOfFour(a: seq<Desc>, b: seq<Desc>, c: seq<Desc>, d: seq<Desc>)
    ensures |Rom(a + b + c + d)| == |Rom(a)| + |Rom(b)| + |Rom(c)| + |Rom(d)|
  {
    RomConcat(a, b);
    RomConcat(a + b, c);
    RomConcat(a + b + c, d);
  }

  lemma {:induction false} PortImages(dtype: nat, ports: seq<Port>)
    ensures AllOfLength(PortDescs(dtype, ports), 20) && |PortDescs(dtype, ports)| == |ports|
  {
  }

  lemma {:induction false} ClusterImages(spec: Spec)
    requires ClustersNamed(spec)
    ensures AllOfLength(ClusterDescs(spec), 90)
    ensures |ClusterDescs(spec)| == Clusters(spec.portsIn) + Clusters(spec.portsOut)
  {
  }

  lemma {:induction false} RomOfPorts(spec: Spec)
    requires ClustersNamed(spec)
    ensures |Rom(PortDescriptors(spec).value)| ==
            20 * (|spec.portsIn| + |spec.portsOut|) + 90 * (Clusters(spec.portsIn) + Clusters(spec.portsOut))
            + 8 * (|spec.audioMaps| + MappingCount(spec.audioMaps))
  {
    var ins, outs := PortDescs(STREAM_PORT_INPUT, spec.portsIn), PortDescs(STREAM_PORT_OUTPUT, spec.portsOut);
    PortImages(STREAM_PORT_INPUT, spec.portsIn);
    PortImages(STREAM_PORT_OUTPUT, spec.portsOut);
    ClusterImages(spec);
    RomOfEqual(ins, 20);
    RomOfEqual(outs, 20);
    RomOfEqual(ClusterDescs(spec), 90);
    RomOfMaps(spec.audioMaps);
    RomOfFour(ins, outs, ClusterDescs(spec), MapDescs(spec.audioMaps));
  }

  /** Eleven groups laid end to end. */
  lemma {:induction false} RomOfFront(entity: Bytes, config: Bytes, unit: Bytes, ins: seq<Desc>, outs: seq<Desc>,
                                      avb: Bytes, clocks: seq<Desc>, domain: Bytes, control: Bytes, locale: Bytes,
                                      strings: Bytes)
    ensures |Rom([Desc(ENTITY, 0, entity)] + [Desc(CONFIGURATION, 0, config)] + [Desc(AUDIO_UNIT, 0, unit)]
                 + ins + outs + [Desc(AVB_INTERFACE, 0, avb)] + clocks + [Desc(CLOCK_DOMAIN, 0, domain)]
                 + [Desc(CONTROL, 0, control)] + [Desc(LOCALE, 0, locale)] + [Desc(STRINGS, 0, strings)])| ==
            |entity| + |config| + |unit| + |Rom(ins)| + |Rom(outs)| + |avb| + |Rom(clocks)| + |domain|
            + |control| + |locale| + |strings|
  {
    var e, c, u := [Desc(ENTITY, 0, entity)], [Desc(CONFIGURATION, 0, config)], [Desc(AUDIO_UNIT, 0, unit)];
    var a, d, k := [Desc(AVB_INTERFACE, 0, avb)], [Desc(CLOCK_DOMAIN, 0, domain)], [Desc(CONTROL, 0, control)];
    var l, s := [Desc(LOCALE, 0, locale)], [Desc(STRINGS, 0, strings)];
    RomOfFour(e, c, u, ins);
    RomOfFour(e + c + u + ins, outs, a, clocks);
    RomOfFour(e + c + u + ins + outs + a + clocks, d, k, l);
    RomConcat(e + c + u + ins + outs + a + clocks + d + k + l, s);
    RomOfOne(e[0]);
    RomOfOne(c[0]);
    RomOfOne(u[0]);
    RomOfOne(a[0]);
    RomOfOne(d[0]);
    RomOfOne(k[0]);
    RomOfOne(l[0]);
    RomOfOne(s[0]);
  }

  lemma {:induction false} RomOfEntityFront(spec: Spec)
    requires EntityDescriptors(spec).Ok?
    ensures |Rom(EntityDescriptors(spec).value)| ==
            1377 + 4 * |spec.rates| + 138 * (|spec.streamInputs| + |spec.streamOutputs|)
            + 8 * (FormatCount(spec.streamInputs) + FormatCount(spec.streamOutputs)) + 88 * |spec.clockSources|
  {
    var si, so, nClk := spec.streamInputs, spec.streamOutputs, |spec.clockSources|;
    ConfigurationLength(|si|, |so|, nClk, spec.names.configuration);
    UnitLength(spec.rates, spec.currentRate, |spec.portsIn|, |spec.portsOut|, spec.names.audioUnit);
    ClockDomainLength(nClk, spec.names.clockDomain);
    RomOfStreams(STREAM_INPUT, si);
    RomOfStreams(STREAM_OUTPUT, so);
    RomOfEqual(ClockSourceDescs(spec.clockSources), 86);
    RomOfFront(EntityBytes(spec.entity), ConfigurationBytes(|si|, |so|, nClk, spec.names.configuration),
               UnitBytes(spec).value, StreamDescs(STREAM_INPUT, si).value, StreamDescs(STREAM_OUTPUT, so).value,
               AvbInterfaceBytes(spec.gptp, spec.names.avbInterface), ClockSourceDescs(spec.clockSources),
               ClockDomainBytes(nClk, spec.names.clockDomain), ControlIdentifyBytes(spec.names.controlIdentify),
               LocaleBytes(spec.locale), StringsBytes(spec.entity.name, spec.ratesString, spec.entity.vendor));
  }

  /** The ROM of a specification is as long as its counts say. */
  lemma {:induction false} RomLength(spec: Spec)
    requires AllDescriptors(spec).Ok?
    ensures |Rom(AllDescriptors(spec).value)| == RomSize(spec)
  {
    RomOfEntityFront(spec);
    RomOfPorts(spec);
    RomConcat(EntityDescriptors(spec).value, PortDescriptors(spec).value);
  }
}
