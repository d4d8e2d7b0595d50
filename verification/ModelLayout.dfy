/**
 Every descriptor a built model serves, octet by octet: in the assembled ROM, in the identity-baked
 image and in the image document, each row is laid out as clause 7.2 places that object's own
 values, and the rows are exactly the objects of the specification.
 */
module ModelLayout {
  import opened AemSpec
  import opened Assemble
  import opened BuildModel
  import opened Descriptors
  import opened DescriptorFields
  import opened Document
  import opened Identity
  import opened Layouts
  import opened MapServing
  import opened ModelDocument
  import opened NameTable
  import opened Octets
  import opened TwoLevel
  import opened Wrappers

  // ----- what each descriptor of a specification is

  /** The stated name of cluster i, or the literal "Input" or "Output" where no list is stated. */
  function ClusterName(spec: Spec, i: nat): Bytes {
    var nIn := Clusters(spec.portsIn);
    if i < nIn then
      if spec.clusterNamesIn == [] then [73, 110, 112, 117, 116]
      else if i < |spec.clusterNamesIn| then spec.clusterNamesIn[i] else []
    else
      if spec.clusterNamesOut == [] then [79, 117, 116, 112, 117, 116]
      else if i - nIn < |spec.clusterNamesOut| then spec.clusterNamesOut[i - nIn] else []
  }

  /** These octets are descriptor (t, i) of this specification. */
  ghost predicate Laid(spec: Spec, t: nat, i: nat, b: Bytes) {
    if t == 0 then i == 0 && EntityLaid(b, spec.entity)
    else if t == 1 then
      i == 0 && ConfigurationLaid(b, spec.names.configuration, |spec.streamInputs|, |spec.streamOutputs|, |spec.clockSources|)
    else if t == 2 then
      i == 0 && AudioUnitLaid(b, spec.names.audioUnit, spec.rates, spec.currentRate, |spec.portsIn|, |spec.portsOut|)
    else if t == 9 then i == 0 && InterfaceLaid(b, spec.gptp, spec.names.avbInterface)
    else if t == 12 then i == 0 && LocaleLaid(b, spec.locale)
    else if t == 13 then i == 0 && StringsLaid(b, spec.entity.name, spec.ratesString, spec.entity.vendor)
    else if t == 26 then i == 0 && ControlLaid(b, spec.names.controlIdentify)
    else if t == 36 then i == 0 && ClockDomainLaid(b, spec.names.clockDomain, |spec.clockSources|)
    else LaidInList(spec, t, i, b)
  }

  ghost predicate LaidInList(spec: Spec, t: nat, i: nat, b: Bytes) {
    if t == 5 then
      i < |spec.streamInputs| && InputLaid(b, i, spec.streamInputs[i])
    else if t == 6 then
      i < |spec.streamOutputs| && OutputLaid(b, i, spec.streamOutputs[i])
    else if t == 10 then i < |spec.clockSources| && ClockSourceLaid(b, i, spec.clockSources[i])
    else if t == 14 then i < |spec.portsIn| && Layouts.PortLaid(b, 14, i, 1, spec.portsIn[i])
    else if t == 15 then i < |spec.portsOut| && Layouts.PortLaid(b, 15, i, 0, spec.portsOut[i])
    else if t == 20 then
      && i < Clusters(spec.portsIn) + Clusters(spec.portsOut)
      && ClusterLaid(b, i, ClusterName(spec, i), if i < Clusters(spec.portsIn) then 0xFFFF else 2)
    else t == 23 && i < |spec.audioMaps| && MapLaid(b, i, spec.audioMaps[i])
  }

  /** An input synchronises on its clock and is class A; so is a clock output, and any other output is class A alone. */
  ghost predicate InputLaid(b: Bytes, i: nat, s: Stream) {
    StreamLaid(b, 5, i, s.name, 3, s.formats, s.buffer)
  }

  ghost predicate OutputLaid(b: Bytes, i: nat, s: Stream) {
    StreamLaid(b, 6, i, s.name, if s.kind == Crf then 3 else 2, s.formats, 0)
  }

  /** The objects a specification has. */
  predicate IsKey(spec: Spec, t: nat, i: nat) {
    if t in {0, 1, 2, 9, 12, 13, 26, 36} then i == 0
    else if t == 5 then i < |spec.streamInputs|
    else if t == 6 then i < |spec.streamOutputs|
    else if t == 10 then i < |spec.clockSources|
    else if t == 14 then i < |spec.portsIn|
    else if t == 15 then i < |spec.portsOut|
    else if t == 20 then i < Clusters(spec.portsIn) + Clusters(spec.portsOut)
    else t == 23 && i < |spec.audioMaps|
  }

  lemma {:induction false} LaidHasKey(spec: Spec, t: nat, i: nat, b: Bytes)
    requires Laid(spec, t, i, b)
    ensures IsKey(spec, t, i)
  {
  }

  ghost predicate LaidDesc(spec: Spec, d: Desc) {
    Laid(spec, d.typ, d.idx, d.img)
  }

  // ----- the groups of the append order

  lemma {:induction false} StreamsAreLaid(spec: Spec, t: nat, ss: seq<Stream>, d: Desc)
    requires (t == STREAM_INPUT && ss == spec.streamInputs) || (t == STREAM_OUTPUT && ss == spec.streamOutputs)
    requires StreamDescs(t, ss).Ok? && d in StreamDescs(t, ss).value
    ensures LaidDesc(spec, d)
  {
    var group := StreamDescs(t, ss).value;
    StreamDescsGroup(t, ss);
    var k :| 0 <= k < |group| && group[k] == d;
    var s := ss[k];
    if t == STREAM_INPUT {
      StreamIsLaid(5, k, s.name, 3, s.formats, s.buffer);
    } else {
      StreamIsLaid(6, k, s.name, if s.kind == Crf then 3 else 2, s.formats, 0);
    }
  }

  lemma {:induction false} ClockSourcesAreLaid(spec: Spec, d: Desc)
    requires d in ClockSourceDescs(spec.clockSources)
    ensures LaidDesc(spec, d)
  {
    var k :| 0 <= k < |spec.clockSources| && d == ClockSourceDescs(spec.clockSources)[k];
    ClockSourceIsLaid(k, spec.clockSources[k]);
  }

  lemma {:induction false} PortsAreLaid(spec: Spec, t: nat, ports: seq<Port>, d: Desc)
    requires (t == STREAM_PORT_INPUT && ports == spec.portsIn) || (t == STREAM_PORT_OUTPUT && ports == spec.portsOut)
    requires d in PortDescs(t, ports)
    ensures LaidDesc(spec, d)
  {
    var k :| 0 <= k < |ports| && d == PortDescs(t, ports)[k];
    PortIsLaid(t, k, if t == STREAM_PORT_INPUT then 1 else 0, ports[k], PortBounds(ports[k]));
  }

  lemma {:induction false} ClusterAt(spec: Spec, k: nat)
    requires ClustersNamed(spec) && k < |ClusterDescs(spec)|
    ensures k < Clusters(spec.portsIn) + Clusters(spec.portsOut)
    ensures ClusterDescs(spec)[k] ==
            Desc(20, k, AudioClusterBytes(k, ClusterName(spec, k), if k < Clusters(spec.portsIn) then 0xFFFF else 2))
  {
  }

  lemma {:induction false} ClustersAreLaid(spec: Spec, d: Desc)
    requires ClustersNamed(spec) && d in ClusterDescs(spec)
    ensures LaidDesc(spec, d)
  {
    var k :| 0 <= k < |ClusterDescs(spec)| && d == ClusterDescs(spec)[k];
    ClusterAt(spec, k);
    ClusterIsLaid(k, ClusterName(spec, k), if k < Clusters(spec.portsIn) then 0xFFFF else 2);
  }

  lemma {:induction false} MapsAreLaid(spec: Spec, d: Desc)
    requires d in MapDescs(spec.audioMaps)
    ensures LaidDesc(spec, d)
  {
    var k :| 0 <= k < |spec.audioMaps| && d == MapDescs(spec.audioMaps)[k];
    MapIsLaid(k, spec.audioMaps[k]);
  }

  lemma {:induction false} FirstSingletonsAreLaid(spec: Spec)
    requires UnitBytes(spec).Ok?
    ensures LaidDesc(spec, Desc(ENTITY, 0, EntityBytes(spec.entity)))
    ensures LaidDesc(spec, Desc(CONFIGURATION, 0, ConfigBytes(spec)))
    ensures LaidDesc(spec, Desc(AUDIO_UNIT, 0, UnitBytes(spec).value))
    ensures LaidDesc(spec, Desc(AVB_INTERFACE, 0, AvbInterfaceBytes(spec.gptp, spec.names.avbInterface)))
  {
    EntityIsLaid(spec.entity);
    ConfigurationIsLaid(|spec.streamInputs|, |spec.streamOutputs|, |spec.clockSources|, spec.names.configuration);
    AudioUnitIsLaid(spec.rates, spec.currentRate, |spec.portsIn|, |spec.portsOut|, spec.names.audioUnit);
    InterfaceIsLaid(spec.gptp, spec.names.avbInterface);
  }

  lemma {:induction false} LastSingletonsAreLaid(spec: Spec)
    ensures LaidDesc(spec, Desc(CLOCK_DOMAIN, 0, ClockDomainBytes(|spec.clockSources|, spec.names.clockDomain)))
    ensures LaidDesc(spec, Desc(CONTROL, 0, ControlIdentifyBytes(spec.names.controlIdentify)))
    ensures LaidDesc(spec, Desc(LOCALE, 0, LocaleBytes(spec.locale)))
    ensures LaidDesc(spec, Desc(STRINGS, 0, StringsBytes(spec.entity.name, spec.ratesString, spec.entity.vendor)))
  {
    ClockDomainIsLaid(|spec.clockSources|, spec.names.clockDomain);
    ControlIsLaid(spec.names.controlIdentify);
    LocaleIsLaid(spec.locale);
    StringsIsLaid(spec.entity.name, spec.ratesString, spec.entity.vendor);
  }

  ghost predicate AllLaid(spec: Spec, descs: seq<Desc>) {
    forall d :: d in descs ==> LaidDesc(spec, d)
  }

  lemma {:induction false} FrontIsLaid(spec: Spec, entity: Bytes, config: Bytes, unit: Bytes, ins: seq<Desc>,
                                       outs: seq<Desc>, avb: Bytes, clocks: seq<Desc>, domain: Bytes, control: Bytes,
                                       locale: Bytes, strings: Bytes)
    requires LaidDesc(spec, Desc(ENTITY, 0, entity)) && LaidDesc(spec, Desc(CONFIGURATION, 0, config))
    requires LaidDesc(spec, Desc(AUDIO_UNIT, 0, unit)) && AllLaid(spec, ins) && AllLaid(spec, outs)
    requires LaidDesc(spec, Desc(AVB_INTERFACE, 0, avb)) && AllLaid(spec, clocks)
    requires LaidDesc(spec, Desc(CLOCK_DOMAIN, 0, domain)) && LaidDesc(spec, Desc(CONTROL, 0, control))
    requires LaidDesc(spec, Desc(LOCALE, 0, locale)) && LaidDesc(spec, Desc(STRINGS, 0, strings))
    ensures AllLaid(spec, [Desc(ENTITY, 0, entity)] + [Desc(CONFIGURATION, 0, config)] + [Desc(AUDIO_UNIT, 0, unit)]
                          + ins + outs + [Desc(AVB_INTERFACE, 0, avb)] + clocks + [Desc(CLOCK_DOMAIN, 0, domain)]
                          + [Desc(CONTROL, 0, control)] + [Desc(LOCALE, 0, locale)] + [Desc(STRINGS, 0, strings)])
  {
  }

  lemma {:induction false} StreamGroupsAreLaid(spec: Spec, ins: seq<Desc>, outs: seq<Desc>)
    requires StreamDescs(STREAM_INPUT, spec.streamInputs) == Ok(ins)
    requires StreamDescs(STREAM_OUTPUT, spec.streamOutputs) == Ok(outs)
    ensures AllLaid(spec, ins) && AllLaid(spec, outs) && AllLaid(spec, ClockSourceDescs(spec.clockSources))
  {
    forall d | d in ins ensures LaidDesc(spec, d) {
      StreamsAreLaid(spec, STREAM_INPUT, spec.streamInputs, d);
    }
    forall d | d in outs ensures LaidDesc(spec, d) {
      StreamsAreLaid(spec, STREAM_OUTPUT, spec.streamOutputs, d);
    }
    forall d | d in ClockSourceDescs(spec.clockSources) ensures LaidDesc(spec, d) {
      ClockSourcesAreLaid(spec, d);
    }
  }

  lemma {:induction false} EntityFrontIsLaid(spec: Spec)
    requires EntityDescriptors(spec).Ok?
    ensures AllLaid(spec, EntityDescriptors(spec).value)
  {
    var ins, outs := StreamDescs(STREAM_INPUT, spec.streamInputs).value, StreamDescs(STREAM_OUTPUT, spec.streamOutputs).value;
    FirstSingletonsAreLaid(spec);
    LastSingletonsAreLaid(spec);
    StreamGroupsAreLaid(spec, ins, outs);
    FrontIsLaid(spec, EntityBytes(spec.entity), ConfigBytes(spec), UnitBytes(spec).value, ins, outs,
                AvbInterfaceBytes(spec.gptp, spec.names.avbInterface), ClockSourceDescs(spec.clockSources),
                ClockDomainBytes(|spec.clockSources|, spec.names.clockDomain),
                ControlIdentifyBytes(spec.names.controlIdentify), LocaleBytes(spec.locale),
                StringsBytes(spec.entity.name, spec.ratesString, spec.entity.vendor));
  }

  lemma {:induction false} PortGroupsAreLaid(spec: Spec)
    requires ClustersNamed(spec)
    ensures AllLaid(spec, PortDescriptors(spec).value)
  {
    forall d | d in PortDescriptors(spec).value ensures LaidDesc(spec, d) {
      if d in PortDescs(STREAM_PORT_INPUT, spec.portsIn) {
        PortsAreLaid(spec, STREAM_PORT_INPUT, spec.portsIn, d);
      } else if d in PortDescs(STREAM_PORT_OUTPUT, spec.portsOut) {
        PortsAreLaid(spec, STREAM_PORT_OUTPUT, spec.portsOut, d);
      } else if d in ClusterDescs(spec) {
        ClustersAreLaid(spec, d);
      } else {
        MapsAreLaid(spec, d);
      }
    }
  }

  /** Every descriptor of every specification is laid out as its own object. */
  lemma {:induction false} DescriptorsAreLaid(spec: Spec)
    requires AllDescriptors(spec).Ok?
    ensures AllLaid(spec, AllDescriptors(spec).value)
  {
    EntityFrontIsLaid(spec);
    PortGroupsAreLaid(spec);
  }

  // ----- in the ROM

  ghost predicate RomRowLaid(spec: Spec, dir: seq<Entry>, rom: Bytes, r: nat)
    requires r < |dir|
  {
    var e := dir[r];
    e.base + e.length <= |rom| && Laid(spec, e.typ, e.idx, rom[e.base..e.base + e.length])
  }

  ghost predicate RomLaid(spec: Spec, dir: seq<Entry>, rom: Bytes) {
    forall r :: 0 <= r < |dir| ==> RomRowLaid(spec, dir, rom, r)
  }

  lemma {:induction false} TiledRomIsLaid(spec: Spec, descs: seq<Desc>, rom: Bytes, dir: seq<Entry>)
    requires AllLaid(spec, descs) && Tiles(descs, rom, dir)
    ensures RomLaid(spec, dir, rom)
  {
    forall r | 0 <= r < |dir| ensures RomRowLaid(spec, dir, rom, r) {
      assert SpanOf(descs, rom, dir, r) && descs[r] in descs;
      assert LaidDesc(spec, descs[r]);
    }
  }

  /** Each row of a built model's directory spans its own object, laid out as specified. */
  lemma {:induction false} ModelRomIsLaid(m: Model, spec: Spec)
    requires IsModelOf(m, spec)
    ensures RomLaid(spec, m.directory, m.rom)
  {
    DescriptorsAreLaid(spec);
    TiledRomIsLaid(spec, AllDescriptors(spec).value, m.rom, m.directory);
  }

  // ----- after identity baking

  /** Octets the identity baking of ENTITY leaves alone. */
  ghost predicate SameStatics(b: Bytes, c: Bytes) {
    && |b| == |c| == 312
    && forall i :: 0 <= i < 312 && !(4 <= i < 36) && !(40 <= i < 48) && !(310 <= i) ==> b[i] == c[i]
  }

  lemma {:induction false} EntityStaysLaid(b: Bytes, c: Bytes, e: EntityText)
    requires EntityLaid(b, e) && SameStatics(b, c)
    ensures EntityLaid(c, e)
  {
  }

  ghost predicate SameInterface(b: Bytes, c: Bytes) {
    && |b| == |c| == 102
    && forall i :: 0 <= i < 102 && !(70 <= i < 76) && !(78 <= i < 86) ==> b[i] == c[i]
  }

  lemma {:induction false} InterfaceStaysLaid(b: Bytes, c: Bytes, gp: Gptp, name: Bytes)
    requires InterfaceLaid(b, gp, name) && SameInterface(b, c)
    ensures InterfaceLaid(c, gp, name)
  {
  }

  lemma {:induction false} BakedEntityStatics(rom: Bytes, a: nat, ident: Ident, baked: Bytes)
    requires 312 <= a && a + 102 <= |rom| && Baked(rom, ReadOverlays(0, a), ident) == Ok(baked)
    ensures |baked| == |rom| && SameStatics(rom[0..312], baked[0..312]) && SameInterface(rom[a..a + 102], baked[a..a + 102])
  {
    IdentityTouchesOnly(rom, 0, a, ident);
    var e, f, b, c := rom[0..312], baked[0..312], rom[a..a + 102], baked[a..a + 102];
    forall i | 0 <= i < 312 && !(4 <= i < 36) && !(40 <= i < 48) && !(310 <= i) ensures e[i] == f[i] {
      assert !IdentityByte(0, a, i);
    }
    forall i | 0 <= i < 102 && !(70 <= i < 76) && !(78 <= i < 86) ensures b[i] == c[i] {
      assert !IdentityByte(0, a, a + i);
    }
  }

  /** ENTITY is row 0 and AVB_INTERFACE the row at a; every other row keeps its octets. */
  ghost predicate RowsKept(dir: seq<Entry>, rom: Bytes, baked: Bytes, a: nat) {
    |baked| == |rom| && forall r :: 0 <= r < |dir| ==> RowKept(dir, rom, baked, a, r)
  }

  ghost predicate RowKept(dir: seq<Entry>, rom: Bytes, baked: Bytes, a: nat, r: nat)
    requires r < |dir|
  {
    var e := dir[r];
    && e.base + e.length <= |rom| && e.base + e.length <= |baked|
    && if e.typ == ENTITY then e.base == 0 && e.length == 312
       else if e.typ == AVB_INTERFACE then e.base == a && e.length == 102
       else baked[e.base..e.base + e.length] == rom[e.base..e.base + e.length]
  }

  lemma {:induction false} KeptRowsAreLaid(spec: Spec, dir: seq<Entry>, rom: Bytes, a: nat, ident: Ident, baked: Bytes)
    requires RomLaid(spec, dir, rom) && RowsKept(dir, rom, baked, a)
    requires 312 <= a && a + 102 <= |rom| && Baked(rom, ReadOverlays(0, a), ident) == Ok(baked)
    ensures RomLaid(spec, dir, baked)
  {
    BakedEntityStatics(rom, a, ident, baked);
    forall r | 0 <= r < |dir| ensures RomRowLaid(spec, dir, baked, r) {
      assert RomRowLaid(spec, dir, rom, r) && RowKept(dir, rom, baked, a, r);
      if dir[r].typ == ENTITY {
        EntityStaysLaid(rom[0..312], baked[0..312], spec.entity);
      } else if dir[r].typ == AVB_INTERFACE {
        InterfaceStaysLaid(rom[a..a + 102], baked[a..a + 102], spec.gptp, spec.names.avbInterface);
      }
    }
  }

  lemma {:induction false} DescriptorRowsKept(descs: seq<Desc>, dir: seq<Entry>, rom: Bytes, baked: Bytes, e: Bytes,
                                              avb: Bytes, a: nat)
    requires Single(descs, dir) && AllKept(descs, dir, rom, baked) && |baked| == |rom|
    requires |e| == 312 && Desc(ENTITY, 0, e) in descs && BaseOf(dir, ENTITY, 0) == Some(0)
    requires |avb| == 102 && Desc(AVB_INTERFACE, 0, avb) in descs && BaseOf(dir, AVB_INTERFACE, 0) == Some(a)
    requires 312 <= |rom| && a + 102 <= |rom|
    ensures RowsKept(dir, rom, baked, a)
  {
    forall r | 0 <= r < |dir| ensures RowKept(dir, rom, baked, a, r) {
      assert RowDescribes(descs, dir, r) && descs[r] in descs;
      BaseOfRow(dir, r);
      if dir[r].typ == ENTITY {
        OneRow(descs, dir, r, Desc(ENTITY, 0, e));
      } else if dir[r].typ == AVB_INTERFACE {
        OneRow(descs, dir, r, Desc(AVB_INTERFACE, 0, avb));
      } else {
        assert KeptAt(dir, rom, baked, descs[r]);
      }
    }
  }

  /** The row of an identity type is that descriptor's. */
  lemma {:induction false} OneRow(descs: seq<Desc>, dir: seq<Entry>, r: nat, d: Desc)
    requires Single(descs, dir) && r < |dir| && d in descs && d.typ == dir[r].typ
    requires d.typ == ENTITY || d.typ == AVB_INTERFACE
    ensures dir[r].idx == d.idx && dir[r].length == |d.img|
  {
    var q :| 0 <= q < |descs| && descs[q] == d;
    assert RowDescribes(descs, dir, q) && RowDescribes(descs, dir, r) && descs[r] in descs;
    KeysAreUnique(dir, q, r);
  }

  /** So it is after identity baking, the fields that baking fills aside. */
  lemma {:induction false} BakedModelIsLaid(m: Model, spec: Spec, ident: Ident, baked: Bytes)
    requires IsModelOf(m, spec) && Baked(m.rom, m.overlays, ident) == Ok(baked)
    ensures RomLaid(spec, m.directory, baked)
  {
    var descs, e, avb, a := TakeApart(m, spec);
    BuiltIsSingle(spec, descs);
    BakingKeepsTheOthers(descs, e, avb, a, ident, baked);
    BakedSize(m.rom, a, ident, baked);
    DescriptorRowsKept(descs, m.directory, m.rom, baked, e, avb, a);
    ModelRomIsLaid(m, spec);
    KeptRowsAreLaid(spec, m.directory, m.rom, a, ident, baked);
  }

  lemma {:induction false} BakedSize(rom: Bytes, a: nat, ident: Ident, baked: Bytes)
    requires 312 <= a && a + 102 <= |rom| && Baked(rom, ReadOverlays(0, a), ident) == Ok(baked)
    ensures |baked| == |rom|
  {
    IdentityTouchesOnly(rom, 0, a, ident);
  }

  // ----- in the document

  ghost predicate DocumentLaid(spec: Spec, doc: Doc) {
    forall r :: 0 <= r < |doc.descriptors| ==> DocumentRowLaid(spec, doc, r)
  }

  ghost predicate DocumentRowLaid(spec: Spec, doc: Doc, r: nat)
    requires r < |doc.descriptors|
  {
    var d := doc.descriptors[r];
    Laid(spec, d.typ, d.idx, d.octets)
  }

  lemma {:induction false} RowOctets(dir: seq<Entry>, baked: Bytes, doc: Doc, named: Slots, r: nat)
    requires IsDocumentOf(doc, baked, dir, named) && r < |dir| && dir[r].base + dir[r].length <= |baked|
    ensures var (d, e) := (doc.descriptors[r], dir[r]);
            d.typ == e.typ && d.idx == e.idx && d.octets == baked[e.base..e.base + e.length]
  {
    var e := dir[r];
    assert RowIs(doc, baked, dir, r);
    assert Slice(baked, e.base, e.base + e.length) == baked[e.base..e.base + e.length];
  }

  lemma {:induction false} SameRowIsLaid(spec: Spec, dir: seq<Entry>, baked: Bytes, doc: Doc, r: nat)
    requires r < |dir| && r < |doc.descriptors| && RomRowLaid(spec, dir, baked, r)
    requires var (d, e) := (doc.descriptors[r], dir[r]);
             d.typ == e.typ && d.idx == e.idx && d.octets == baked[e.base..e.base + e.length]
    ensures DocumentRowLaid(spec, doc, r)
  {
  }

  lemma {:induction false} LaidImageMakesLaidRows(spec: Spec, dir: seq<Entry>, baked: Bytes, doc: Doc, named: Slots)
    requires RomLaid(spec, dir, baked) && IsDocumentOf(doc, baked, dir, named)
    ensures DocumentLaid(spec, doc)
  {
    forall r | 0 <= r < |doc.descriptors| ensures DocumentRowLaid(spec, doc, r) {
      assert RomRowLaid(spec, dir, baked, r);
      RowOctets(dir, baked, doc, named, r);
      SameRowIsLaid(spec, dir, baked, doc, r);
    }
  }

  /** Every row of a built model's document holds its own object, laid out as specified. */
  lemma {:induction false} ModelDocumentIsLaid(m: Model, spec: Spec, ident: Ident, baked: Bytes, doc: Doc)
    requires IsModelOf(m, spec) && Baked(m.rom, m.overlays, ident) == Ok(baked)
    requires IsDocumentOf(doc, baked, m.directory, SlotMap(m.named))
    ensures DocumentLaid(spec, doc)
  {
    BakedModelIsLaid(m, spec, ident, baked);
    LaidImageMakesLaidRows(spec, m.directory, baked, doc, SlotMap(m.named));
  }

  // ----- which rows there are

  lemma {:induction false} FrontEnds(front: seq<Desc>, control: Bytes, locale: Bytes, strings: Bytes)
    ensures Desc(LOCALE, 0, locale) in front + [Desc(CONTROL, 0, control)] + [Desc(LOCALE, 0, locale)] + [Desc(STRINGS, 0, strings)]
    ensures Desc(STRINGS, 0, strings) in front + [Desc(CONTROL, 0, control)] + [Desc(LOCALE, 0, locale)] + [Desc(STRINGS, 0, strings)]
  {
  }

  lemma {:induction false} LocalePresent(spec: Spec) returns (locale: Desc, strings: Desc)
    requires AllDescriptors(spec).Ok?
    ensures locale in AllDescriptors(spec).value && locale.typ == 12 && locale.idx == 0
    ensures strings in AllDescriptors(spec).value && strings.typ == 13 && strings.idx == 0
  {
    locale := Desc(LOCALE, 0, LocaleBytes(spec.locale));
    strings := Desc(STRINGS, 0, StringsBytes(spec.entity.name, spec.ratesString, spec.entity.vendor));
    var si, so, nClk := spec.streamInputs, spec.streamOutputs, |spec.clockSources|;
    FrontEnds([Desc(ENTITY, 0, EntityBytes(spec.entity))]
              + [Desc(CONFIGURATION, 0, ConfigurationBytes(|si|, |so|, nClk, spec.names.configuration))]
              + [Desc(AUDIO_UNIT, 0, UnitBytes(spec).value)]
              + StreamDescs(STREAM_INPUT, si).value + StreamDescs(STREAM_OUTPUT, so).value
              + [Desc(AVB_INTERFACE, 0, AvbInterfaceBytes(spec.gptp, spec.names.avbInterface))]
              + ClockSourceDescs(spec.clockSources)
              + [Desc(CLOCK_DOMAIN, 0, ClockDomainBytes(nClk, spec.names.clockDomain))],
              ControlIdentifyBytes(spec.names.controlIdentify), LocaleBytes(spec.locale), strings.img);
    assert locale in EntityDescriptors(spec).value && strings in EntityDescriptors(spec).value;
  }

  lemma {:induction false} SingletonPresent(spec: Spec, t: nat) returns (d: Desc)
    requires AllDescriptors(spec).Ok? && t in {0, 1, 2, 9, 12, 13, 26, 36}
    ensures d in AllDescriptors(spec).value && d.typ == t && d.idx == 0
  {
    DescriptorsPresent(spec);
    var locale, strings := LocalePresent(spec);
    d := if t == 0 then AllDescriptors(spec).value[0]
         else if t == 1 then Desc(CONFIGURATION, 0, ConfigBytes(spec))
         else if t == 2 then Desc(AUDIO_UNIT, 0, UnitBytes(spec).value)
         else if t == 9 then Desc(AVB_INTERFACE, 0, AvbInterfaceBytes(spec.gptp, spec.names.avbInterface))
         else if t == 12 then locale
         else if t == 13 then strings
         else if t == 26 then Desc(CONTROL, 0, ControlIdentifyBytes(spec.names.controlIdentify))
         else Desc(CLOCK_DOMAIN, 0, ClockDomainBytes(|spec.clockSources|, spec.names.clockDomain));
  }

  lemma {:induction false} ListedPresent(spec: Spec, t: nat, i: nat) returns (d: Desc)
    requires AllDescriptors(spec).Ok? && IsKey(spec, t, i) && t !in {0, 1, 2, 9, 12, 13, 26, 36}
    ensures d in AllDescriptors(spec).value && d.typ == t && d.idx == i
  {
    DescriptorsPresent(spec);
    if t == 5 || t == 6 {
      StreamPresent(spec, t, i);
      d := Desc(t, i, StreamImage(t, i, (if t == STREAM_INPUT then spec.streamInputs else spec.streamOutputs)[i]).value);
    } else if t == 10 {
      d := ClockSourceDescs(spec.clockSources)[i];
    } else if t == 14 {
      d := PortDescs(STREAM_PORT_INPUT, spec.portsIn)[i];
    } else if t == 15 {
      d := PortDescs(STREAM_PORT_OUTPUT, spec.portsOut)[i];
    } else if t == 20 {
      d := ClusterDescs(spec)[i];
    } else {
      d := MapDescs(spec.audioMaps)[i];
    }
  }

  lemma {:induction false} KeyPresent(spec: Spec, t: nat, i: nat) returns (d: Desc)
    requires AllDescriptors(spec).Ok? && IsKey(spec, t, i)
    ensures d in AllDescriptors(spec).value && d.typ == t && d.idx == i
  {
    if t in {0, 1, 2, 9, 12, 13, 26, 36} {
      d := SingletonPresent(spec, t);
    } else {
      d := ListedPresent(spec, t, i);
    }
  }

  ghost predicate HasKey(dir: seq<Entry>, t: nat, i: nat) {
    exists r :: 0 <= r < |dir| && CarriesKey(dir, r, t, i)
  }

  ghost predicate CarriesKey(dir: seq<Entry>, r: nat, t: nat, i: nat)
    requires r < |dir|
  {
    dir[r].typ == t && dir[r].idx == i
  }

  lemma {:induction false} DescribedHasKey(descs: seq<Desc>, dir: seq<Entry>, d: Desc)
    requires Single(descs, dir) && d in descs
    ensures HasKey(dir, d.typ, d.idx)
  {
    var r :| 0 <= r < |descs| && descs[r] == d;
    assert RowDescribes(descs, dir, r);
    assert CarriesKey(dir, r, d.typ, d.idx);
  }

  /** A built model's directory has exactly the rows of its specification's objects. */
  lemma {:induction false} RowsAreTheObjects(m: Model, spec: Spec, t: nat, i: nat)
    requires IsModelOf(m, spec)
    ensures HasKey(m.directory, t, i) <==> IsKey(spec, t, i)
  {
    BuiltIsSingle(spec, AllDescriptors(spec).value);
    if IsKey(spec, t, i) {
      var d := KeyPresent(spec, t, i);
      DescribedHasKey(AllDescriptors(spec).value, m.directory, d);
    }
    if HasKey(m.directory, t, i) {
      ModelRomIsLaid(m, spec);
      var r :| 0 <= r < |m.directory| && CarriesKey(m.directory, r, t, i);
      KeyIsLaid(spec, m.directory, m.rom, r);
    }
  }

  lemma {:induction false} KeyIsLaid(spec: Spec, dir: seq<Entry>, rom: Bytes, r: nat)
    requires RomLaid(spec, dir, rom) && r < |dir|
    ensures IsKey(spec, dir[r].typ, dir[r].idx)
  {
    assert RomRowLaid(spec, dir, rom, r);
    LaidHasKey(spec, dir[r].typ, dir[r].idx, rom[dir[r].base..dir[r].base + dir[r].length]);
  }
}
