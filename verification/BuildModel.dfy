/**
 A specification becomes a model (avdecc/aem_assemble.py, `build_model`), and what every built
 model guarantees.
 */
module BuildModel {
  import opened AemSpec
  import opened Assemble
  import opened AudioMaps
  import opened Descriptors
  import opened Identity
  import opened NameSplit
  import opened Octets
  import opened Sequences
  import opened TalkerMap
  import opened TwoLevel
  import opened Wrappers

  // ----- the listener-side dynamic map constants

  datatype DynMap = DynMap(keys: nat, page: nat)

  function DynamicPorts(ports: seq<Port>): seq<Port> {
    if ports == [] then []
    else DynamicPorts(ports[..|ports| - 1]) + if ports[|ports| - 1].dynamic then [ports[|ports| - 1]] else []
  }

  /** The map_page values stated; zero states nothing. */
  function ExplicitPages(ports: seq<Port>): set<nat> {
    set p | p in ports && p.mapPage.Some? && p.mapPage.value != 0 :: p.mapPage.value
  }

  function WidestPort(ports: seq<Port>): nat {
    if ports == [] then 0
    else
      var rest, c := WidestPort(ports[..|ports| - 1]), ports[|ports| - 1].clusters;
      if c > rest then c else rest
  }

  function KeySpace(ports: seq<Port>): nat {
    if ports == [] then 0
    else
      var rest, top := KeySpace(ports[..|ports| - 1]), ports[|ports| - 1].baseCluster + ports[|ports| - 1].clusters;
      if top > rest then top else rest
  }

  /** None for a shape without dynamic inputs; a refusal for a page or a key space the fabric lacks. */
  function DynMapTables(spec: Spec): Result<Option<DynMap>> {
    var dyn := DynamicPorts(spec.portsIn);
    if dyn == [] then Ok(None)
    else
      var explicit := ExplicitPages(dyn);
      if |explicit| > 1 then Err
      else
        var page := if explicit != {} then Greatest(explicit)
                    else if WidestPort(dyn) < 8 then WidestPort(dyn) else 8;
        if page < 1 || page > 9 || KeySpace(dyn) > 64 then Err
        else Ok(Some(DynMap(KeySpace(dyn), page)))
  }

  lemma {:induction false} DynamicPortsMeaning(ports: seq<Port>, p: Port)
    ensures p in DynamicPorts(ports) <==> p in ports && p.dynamic
  {
    if ports != [] {
      var n := |ports| - 1;
      assert ports == ports[..n] + [ports[n]];
      DynamicPortsMeaning(ports[..n], p);
    }
  }

  lemma {:induction false} KeySpaceIsTheMaximum(ports: seq<Port>)
    ensures forall p :: p in ports ==> p.baseCluster + p.clusters <= KeySpace(ports)
    ensures ports != [] ==> exists p :: p in ports && p.baseCluster + p.clusters == KeySpace(ports)
  {
    if ports != [] {
      var n := |ports| - 1;
      assert ports == ports[..n] + [ports[n]];
      KeySpaceIsTheMaximum(ports[..n]);
      if n > 0 && KeySpace(ports) == KeySpace(ports[..n]) {
        var p :| p in ports[..n] && p.baseCluster + p.clusters == KeySpace(ports[..n]);
        assert p in ports;
      } else {
        assert ports[n] in ports;
      }
    }
  }

  lemma {:induction false} OneMember(s: set<nat>, x: nat)
    requires |s| <= 1 && x in s
    ensures Greatest(s) == x
  {
    assert |s - {x}| == |s| - 1;
    assert Greatest(s) !in s - {x};
  }

  lemma {:induction false} WidestPortIsTheMaximum(ports: seq<Port>)
    ensures forall p :: p in ports ==> p.clusters <= WidestPort(ports)
  {
    if ports != [] {
      var n := |ports| - 1;
      assert ports == ports[..n] + [ports[n]];
      WidestPortIsTheMaximum(ports[..n]);
    }
  }

  lemma {:induction false} WidestPortIsAPort(ports: seq<Port>) returns (p: Port)
    requires ports != []
    ensures p in ports && p.clusters == WidestPort(ports)
  {
    var n := |ports| - 1;
    p := ports[n];
    if n > 0 && ports[n].clusters < WidestPort(ports[..n]) {
      p := WidestPortIsAPort(ports[..n]);
    }
  }

  predicate StatesPage(p: Port) {
    p.dynamic && p.mapPage.Some? && p.mapPage.value != 0
  }

  /** What the listener constants demand of the dynamic input ports. */
  ghost predicate ListenerAccepts(ports: seq<Port>) {
    && (forall p :: p in ports && p.dynamic ==> p.baseCluster + p.clusters <= 64)
    && (forall p :: p in ports && StatesPage(p) ==> p.mapPage.value <= 9)
    && (forall p, q :: p in ports && q in ports && StatesPage(p) && StatesPage(q) ==> p.mapPage == q.mapPage)
    && (AnyDynamic(ports) ==> exists p :: p in ports && p.dynamic && (p.clusters > 0 || StatesPage(p)))
  }

  /** The page: the stated one, else the widest dynamic port's clusters, capped at 8. */
  ghost predicate IsPage(page: nat, ports: seq<Port>) {
    && (forall p :: p in ports && StatesPage(p) ==> page == p.mapPage.value)
    && ((forall p :: p in ports ==> !StatesPage(p)) ==>
          && page <= 8
          && (exists p :: p in ports && p.dynamic && page <= p.clusters)
          && (page < 8 ==> forall p :: p in ports && p.dynamic ==> p.clusters <= page))
  }

  /** The key space: the least bound of the dynamic ports' clusters. */
  ghost predicate IsKeySpace(keys: nat, ports: seq<Port>) {
    && (forall p :: p in ports && p.dynamic ==> p.baseCluster + p.clusters <= keys)
    && (exists p :: p in ports && p.dynamic && p.baseCluster + p.clusters == keys)
  }

  lemma {:induction false} StatedPages(ports: seq<Port>)
    ensures forall v :: v in ExplicitPages(DynamicPorts(ports)) <==>
                          exists p :: p in ports && StatesPage(p) && p.mapPage.value == v
    ensures |ExplicitPages(DynamicPorts(ports))| <= 1 <==>
            forall p, q :: p in ports && q in ports && StatesPage(p) && StatesPage(q) ==> p.mapPage == q.mapPage
  {
    var dyn := DynamicPorts(ports);
    var pages := ExplicitPages(dyn);
    forall p ensures p in dyn <==> p in ports && p.dynamic {
      DynamicPortsMeaning(ports, p);
    }
    forall p | p in ports && StatesPage(p) ensures p.mapPage.value in pages {
      assert p in dyn;
    }
    if |pages| <= 1 {
      forall p, q | p in ports && q in ports && StatesPage(p) && StatesPage(q) ensures p.mapPage == q.mapPage {
        OneMember(pages, p.mapPage.value);
        OneMember(pages, q.mapPage.value);
      }
    } else {
      var v :| v in pages;
      var w := SecondMember(pages, v);
      var p :| p in dyn && p.mapPage == Some(v);
      var q :| q in dyn && q.mapPage == Some(w);
      assert StatesPage(p) && StatesPage(q);
    }
  }

  lemma {:induction false} SecondMember(s: set<nat>, v: nat) returns (w: nat)
    requires |s| > 1 && v in s
    ensures w in s && w != v
  {
    assert |s - {v}| == |s| - 1;
    w :| w in s - {v};
  }

  /** What the listener constants are, once a port is dynamic and the stated pages agree. */
  lemma {:induction false} PageAndKeys(ports: seq<Port>, page: nat)
    requires AnyDynamic(ports)
    requires var dyn := DynamicPorts(ports);
             && |ExplicitPages(dyn)| <= 1
             && page == if ExplicitPages(dyn) != {} then Greatest(ExplicitPages(dyn))
                        else if WidestPort(dyn) < 8 then WidestPort(dyn) else 8
    ensures IsPage(page, ports) && IsKeySpace(KeySpace(DynamicPorts(ports)), ports)
  {
    var dyn := DynamicPorts(ports);
    forall p ensures p in dyn <==> p in ports && p.dynamic {
      DynamicPortsMeaning(ports, p);
    }
    NoDynamicPorts(ports);
    KeySpaceIsTheMaximum(dyn);
    WidestPortIsTheMaximum(dyn);
    var widest := WidestPortIsAPort(dyn);
    StatedPages(ports);
    forall p | p in ports && StatesPage(p) ensures page == p.mapPage.value {
      OneMember(ExplicitPages(dyn), p.mapPage.value);
    }
  }

  lemma {:induction false} NoDynamicPorts(ports: seq<Port>)
    ensures DynamicPorts(ports) == [] <==> !AnyDynamic(ports)
  {
    var dyn := DynamicPorts(ports);
    forall p ensures p in dyn <==> p in ports && p.dynamic {
      DynamicPortsMeaning(ports, p);
    }
    if dyn != [] {
      assert dyn[0] in dyn;
    }
  }

  /** The listener constants are refused exactly when a port is past the fabric, and are then the tight ones. */
  lemma {:induction false} DynMapMeaning(spec: Spec)
    ensures DynMapTables(spec).Ok? <==> ListenerAccepts(spec.portsIn)
    ensures DynMapTables(spec).Ok? ==> (DynMapTables(spec).value.Some? <==> AnyDynamic(spec.portsIn))
    ensures DynMapTables(spec).Ok? && DynMapTables(spec).value.Some? ==>
              IsPage(DynMapTables(spec).value.value.page, spec.portsIn)
              && IsKeySpace(DynMapTables(spec).value.value.keys, spec.portsIn)
  {
    var ports := spec.portsIn;
    NoDynamicPorts(ports);
    StatedPages(ports);
    if AnyDynamic(ports) && |ExplicitPages(DynamicPorts(ports))| <= 1 {
      var dyn := DynamicPorts(ports);
      var page := if ExplicitPages(dyn) != {} then Greatest(ExplicitPages(dyn))
                  else if WidestPort(dyn) < 8 then WidestPort(dyn) else 8;
      PageAndKeys(ports, page);
      PageInRange(ports, page);
    }
  }

  lemma {:induction false} PageInRange(ports: seq<Port>, page: nat)
    requires AnyDynamic(ports) && IsPage(page, ports) && IsKeySpace(KeySpace(DynamicPorts(ports)), ports)
    requires forall p, q :: p in ports && q in ports && StatesPage(p) && StatesPage(q) ==> p.mapPage == q.mapPage
    ensures 1 <= page <= 9 && KeySpace(DynamicPorts(ports)) <= 64 <==> ListenerAccepts(ports)
  {
    if p :| p in ports && StatesPage(p) {
      assert page == p.mapPage.value;
    }
  }

  // ----- the remaining address tables

  predicate IsNamedType(t: nat) {
    t in {CONFIGURATION, AUDIO_UNIT, STREAM_INPUT, STREAM_OUTPUT, AVB_INTERFACE, CLOCK_SOURCE,
          CLOCK_DOMAIN, CONTROL, AUDIO_CLUSTER}
  }

  function NamedRows(dir: seq<Entry>): seq<Named> {
    if dir == [] then []
    else
      var e := dir[|dir| - 1];
      NamedRows(dir[..|dir| - 1]) + if IsNamedType(e.typ) then [Named(e.typ, e.idx, 0, e.base + 4)] else []
  }

  /** `_named_addresses` */
  function NamedAddresses(dir: seq<Entry>, entityBase: nat): seq<Named> {
    [Named(ENTITY, 0, 0, entityBase + 48), Named(ENTITY, 0, 1, entityBase + 180)] + NamedRows(dir)
  }

  function BaseOrErr(dir: seq<Entry>, t: nat, i: nat): Result<nat> {
    match BaseOf(dir, t, i) case Some(b) => Ok(b) case None => Err
  }

  /** The bases of descriptors 0 to n - 1 of one type, each moved by an offset. */
  function BasesPlus(dir: seq<Entry>, t: nat, n: nat, offset: nat): Result<seq<nat>> {
    if n == 0 then Ok([])
    else
      var rest :- BasesPlus(dir, t, n - 1, offset);
      var b :- BaseOrErr(dir, t, n - 1);
      Ok(rest + [b + offset])
  }

  datatype WriteBack = WriteBack(samplingRate: nat, streamFormat: nat, streamInFormat: seq<nat>,
                                 clockSourceIndex: nat, controlCurrent: nat, audioMap: seq<nat>)

  /** `_writeback_targets`: which ROM field each SET command lands in. */
  function WritebackTargets(spec: Spec, dir: seq<Entry>): Result<WriteBack> {
    var unit :- BaseOrErr(dir, AUDIO_UNIT, 0);
    var out :- BaseOrErr(dir, STREAM_OUTPUT, 0);
    var ins :- BasesPlus(dir, STREAM_INPUT, |spec.streamInputs|, 74);
    var domain :- BaseOrErr(dir, CLOCK_DOMAIN, 0);
    var control :- BaseOrErr(dir, CONTROL, 0);
    var maps :- BasesPlus(dir, AUDIO_MAP, |spec.audioMaps|, 0);
    Ok(WriteBack(unit + 136, out + 74, ins, domain + 70, control + 108, maps))
  }

  // ----- every descriptor

  predicate StreamPackable(dtype: nat, s: Stream) {
    s.formats != [] && (dtype == STREAM_INPUT ==> IsU32(s.buffer))
  }

  lemma {:induction false} StreamDescribed(dtype: nat, k: nat, s: Stream)
    ensures StreamImage(dtype, k, s).Ok? <==> StreamPackable(dtype, s)
  {
  }

  lemma {:induction false} StreamsDescribed(dtype: nat, ss: seq<Stream>)
    ensures StreamDescs(dtype, ss).Ok? <==> forall s :: s in ss ==> StreamPackable(dtype, s)
  {
    if ss != [] {
      var n := |ss| - 1;
      StreamsDescribed(dtype, ss[..n]);
      StreamDescribed(dtype, n, ss[n]);
      assert ss == ss[..n] + [ss[n]];
    }
  }

  lemma {:induction false} PackableIsDescribable(spec: Spec)
    ensures EntityDescriptors(spec).Ok? <==> Packable(spec)
  {
    StreamsDescribed(STREAM_INPUT, spec.streamInputs);
    StreamsDescribed(STREAM_OUTPUT, spec.streamOutputs);
  }

  /** A descriptor's body opens with its own type and index, and has room for the name its type carries. */
  ghost predicate Proper(img: Bytes, typ: nat, idx: nat) {
    NamesItself(img, typ, idx) && (IsNamedType(typ) ==> |img| >= 4 + NAME_BYTES)
  }

  ghost predicate AllNameThemselves(descs: seq<Desc>) {
    forall d :: d in descs ==> Proper(d.img, d.typ, d.idx)
  }

  lemma {:induction false} StreamNamesItself(dtype: nat, index: nat, s: Stream)
    requires StreamImage(dtype, index, s).Ok?
    ensures Proper(StreamImage(dtype, index, s).value, dtype, index)
  {
    var b := StreamImage(dtype, index, s).value;
    assert b[..4] == b[..STREAM_FORMATS_OFFSET][..4];
  }

  lemma {:induction false} StreamsNameThemselves(dtype: nat, ss: seq<Stream>)
    requires StreamDescs(dtype, ss).Ok?
    ensures AllNameThemselves(StreamDescs(dtype, ss).value)
  {
    if ss != [] {
      StreamsNameThemselves(dtype, ss[..|ss| - 1]);
      StreamNamesItself(dtype, |ss| - 1, ss[|ss| - 1]);
    }
  }

  lemma {:induction false} PortsNameThemselves(spec: Spec)
    requires ClustersNamed(spec)
    ensures AllNameThemselves(PortDescriptors(spec).value)
  {
    PortDescsNameThemselves(STREAM_PORT_INPUT, spec.portsIn);
    PortDescsNameThemselves(STREAM_PORT_OUTPUT, spec.portsOut);
    ClustersNameThemselves(spec);
    MapsNameThemselves(spec.audioMaps);
    NamesFour(PortDescs(STREAM_PORT_INPUT, spec.portsIn), PortDescs(STREAM_PORT_OUTPUT, spec.portsOut),
              ClusterDescs(spec), MapDescs(spec.audioMaps));
  }

  lemma {:induction false} PortDescsNameThemselves(dtype: nat, ports: seq<Port>)
    requires dtype == STREAM_PORT_INPUT || dtype == STREAM_PORT_OUTPUT
    ensures AllNameThemselves(PortDescs(dtype, ports))
  {
  }

  lemma {:induction false} ClustersNameThemselves(spec: Spec)
    requires ClustersNamed(spec)
    ensures AllNameThemselves(ClusterDescs(spec))
  {
  }

  lemma {:induction false} MapsNameThemselves(maps: seq<seq<MapRow>>)
    ensures AllNameThemselves(MapDescs(maps))
  {
    forall d | d in MapDescs(maps) ensures Proper(d.img, d.typ, d.idx) {
      var k :| 0 <= k < |maps| && d == Desc(AUDIO_MAP, k, AudioMapBytes(k, maps[k]));
      assert d.img[..4] == AudioMapHeader(k, |maps[k]|)[..4];
    }
  }

  lemma {:induction false} NamesConcat(a: seq<Desc>, b: seq<Desc>)
    requires AllNameThemselves(a) && AllNameThemselves(b)
    ensures AllNameThemselves(a + b)
  {
  }

  lemma {:induction false} NamesFour(a: seq<Desc>, b: seq<Desc>, c: seq<Desc>, d: seq<Desc>)
    requires AllNameThemselves(a) && AllNameThemselves(b) && AllNameThemselves(c) && AllNameThemselves(d)
    ensures AllNameThemselves(a + b + c + d)
  {
    NamesConcat(a, b);
    NamesConcat(a + b, c);
    NamesConcat(a + b + c, d);
  }

  lemma {:induction false} FrontNamesItself(entity: Bytes, config: Bytes, unit: Bytes, ins: seq<Desc>, outs: seq<Desc>,
                                            avb: Bytes, clocks: seq<Desc>, domain: Bytes, control: Bytes, locale: Bytes,
                                            strings: Bytes)
    requires Proper(entity, ENTITY, 0) && Proper(config, CONFIGURATION, 0) && Proper(unit, AUDIO_UNIT, 0)
    requires AllNameThemselves(ins) && AllNameThemselves(outs) && Proper(avb, AVB_INTERFACE, 0)
    requires AllNameThemselves(clocks) && Proper(domain, CLOCK_DOMAIN, 0) && Proper(control, CONTROL, 0)
    requires Proper(locale, LOCALE, 0) && Proper(strings, STRINGS, 0)
    ensures AllNameThemselves([Desc(ENTITY, 0, entity)] + [Desc(CONFIGURATION, 0, config)] + [Desc(AUDIO_UNIT, 0, unit)]
                              + ins + outs + [Desc(AVB_INTERFACE, 0, avb)] + clocks + [Desc(CLOCK_DOMAIN, 0, domain)]
                              + [Desc(CONTROL, 0, control)] + [Desc(LOCALE, 0, locale)] + [Desc(STRINGS, 0, strings)])
  {
    var e, c, u := [Desc(ENTITY, 0, entity)], [Desc(CONFIGURATION, 0, config)], [Desc(AUDIO_UNIT, 0, unit)];
    var a, d, k := [Desc(AVB_INTERFACE, 0, avb)], [Desc(CLOCK_DOMAIN, 0, domain)], [Desc(CONTROL, 0, control)];
    NamesFour(e, c, u, ins);
    NamesFour(e + c + u + ins, outs, a, clocks);
    NamesFour(e + c + u + ins + outs + a + clocks, d, k, [Desc(LOCALE, 0, locale)]);
    NamesConcat(e + c + u + ins + outs + a + clocks + d + k + [Desc(LOCALE, 0, locale)], [Desc(STRINGS, 0, strings)]);
  }

  lemma {:induction false} ConfigurationNamesItself(nIn: nat, nOut: nat, nClk: nat, name: Bytes)
    ensures Proper(ConfigurationBytes(nIn, nOut, nClk, name), CONFIGURATION, 0)
  {
    HeaderNames(ConfigurationHeader(name, 8), Flat(CountRecords(ConfigurationCounts(nIn, nOut, nClk))), CONFIGURATION);
  }

  lemma {:induction false} AudioUnitNamesItself(rates: seq<nat>, current: nat, nIn: nat, nOut: nat, name: Bytes)
    requires AudioUnitBytes(rates, current, nIn, nOut, name).Ok?
    ensures Proper(AudioUnitBytes(rates, current, nIn, nOut, name).value, AUDIO_UNIT, 0)
  {
    HeaderNames(AudioUnitHeader(name, current, nIn, nOut, |rates|), Flat(RateRecords(rates)), AUDIO_UNIT);
  }

  lemma {:induction false} ClockDomainNamesItself(n: nat, name: Bytes)
    ensures Proper(ClockDomainBytes(n, name), CLOCK_DOMAIN, 0)
  {
    HeaderNames(ClockDomainHeader(name, n), Flat(SourceRecords(n)), CLOCK_DOMAIN);
  }

  lemma {:induction false} HeaderNames(header: Bytes, tail: Bytes, dtype: nat)
    requires NamesItself(header, dtype, 0)
    ensures NamesItself(header + tail, dtype, 0)
  {
    assert (header + tail)[..4] == header[..4];
  }

  lemma {:induction false} EntitiesNameThemselves(spec: Spec)
    requires EntityDescriptors(spec).Ok?
    ensures AllNameThemselves(EntityDescriptors(spec).value)
  {
    var si, so, nClk := spec.streamInputs, spec.streamOutputs, |spec.clockSources|;
    StreamsNameThemselves(STREAM_INPUT, si);
    StreamsNameThemselves(STREAM_OUTPUT, so);
    AudioUnitNamesItself(spec.rates, spec.currentRate, |spec.portsIn|, |spec.portsOut|, spec.names.audioUnit);
    ConfigurationNamesItself(|si|, |so|, nClk, spec.names.configuration);
    ClockDomainNamesItself(nClk, spec.names.clockDomain);
    FrontNamesItself(EntityBytes(spec.entity), ConfigurationBytes(|si|, |so|, nClk, spec.names.configuration),
                     UnitBytes(spec).value,
                     StreamDescs(STREAM_INPUT, si).value, StreamDescs(STREAM_OUTPUT, so).value,
                     AvbInterfaceBytes(spec.gptp, spec.names.avbInterface), ClockSourceDescs(spec.clockSources),
                     ClockDomainBytes(nClk, spec.names.clockDomain), ControlIdentifyBytes(spec.names.controlIdentify),
                     LocaleBytes(spec.locale),
                     StringsBytes(spec.entity.name, spec.ratesString, spec.entity.vendor));
  }

  lemma {:induction false} DescriptorsNameThemselves(spec: Spec)
    requires AllDescriptors(spec).Ok?
    ensures AllNameThemselves(AllDescriptors(spec).value)
  {
    EntitiesNameThemselves(spec);
    PortsNameThemselves(spec);
  }

  /** Where a descriptor of the model sits: found by its key, inside the ROM, holding its bytes. */
  ghost predicate Located(descs: seq<Desc>, d: Desc, base: nat) {
    && BaseOf(Directory(descs), d.typ, d.idx) == Some(base)
    && base + |d.img| <= |Rom(descs)|
    && Rom(descs)[base..base + |d.img|] == d.img
  }

  lemma {:induction false} Locate(descs: seq<Desc>, d: Desc) returns (base: nat, r: nat)
    requires d in descs && Addressable(Directory(descs))
    ensures Located(descs, d, base)
    ensures r < |descs| && descs[r] == d && Directory(descs)[r].base == base && Directory(descs)[r].length == |d.img|
  {
    r :| 0 <= r < |descs| && descs[r] == d;
    SpansHoldImages(descs);
    assert SpanOf(descs, Rom(descs), Directory(descs), r);
    BaseOfRow(Directory(descs), r);
    base := Directory(descs)[r].base;
  }

  /** Two different descriptors' spans do not overlap. */
  lemma {:induction false} LocatedApart(descs: seq<Desc>, c: Desc, d: Desc, cBase: nat, dBase: nat)
    requires Addressable(Directory(descs)) && c in descs && d in descs && (c.typ != d.typ || c.idx != d.idx)
    requires Located(descs, c, cBase) && Located(descs, d, dBase)
    ensures cBase + |c.img| <= dBase || dBase + |d.img| <= cBase
  {
    var cb, i := Locate(descs, c);
    var db, j := Locate(descs, d);
    if i < j {
      SpansAreOrdered(descs, i, j);
    } else {
      SpansAreOrdered(descs, j, i);
    }
  }

  // ----- the named objects

  lemma {:induction false} NamedRowsMeaning(dir: seq<Entry>, e: Named)
    ensures e in NamedRows(dir) <==>
            exists r :: 0 <= r < |dir| && IsNamedType(dir[r].typ) && e == Named(dir[r].typ, dir[r].idx, 0, dir[r].base + 4)
  {
    if dir != [] {
      var n := |dir| - 1;
      NamedRowsMeaning(dir[..n], e);
      assert forall r :: 0 <= r < n ==> dir[..n][r] == dir[r];
    }
  }

  lemma {:induction false} NamedRowsDistinct(dir: seq<Entry>, n: nat)
    requires Addressable(dir) && n <= |dir|
    ensures DistinctNames(NamedRows(dir[..n]))
  {
    if n > 0 {
      NamedRowsDistinct(dir, n - 1);
      var before, last := NamedRows(dir[..n - 1]), dir[n - 1];
      assert dir[..n][..n - 1] == dir[..n - 1];
      forall i | 0 <= i < |before| ensures before[i].typ != last.typ || before[i].idx != last.idx {
        assert before[i] in before;
        NamedRowsMeaning(dir[..n - 1], before[i]);
        var r :| 0 <= r < n - 1 && before[i] == Named(dir[..n - 1][r].typ, dir[..n - 1][r].idx, 0, dir[..n - 1][r].base + 4);
        if dir[r].typ == last.typ && dir[r].idx == last.idx {
          KeysAreUnique(dir, r, n - 1);
        }
      }
      var all := NamedRows(dir[..n]);
      forall i, j | 0 <= i < j < |all| ensures Differ(all[i], all[j]) {
        if j < |before| {
          assert Differ(before[i], before[j]);
        }
      }
    }
  }

  /** The NAMED keys are distinct, and each has its descriptor. */
  lemma {:induction false} NamedAddressesAreSound(dir: seq<Entry>, r: nat)
    requires Addressable(dir) && r < |dir| && dir[r].typ == ENTITY && dir[r].idx == 0
    ensures DistinctNames(NamedAddresses(dir, dir[r].base)) && NamesPresent(dir, NamedAddresses(dir, dir[r].base))
    ensures FirstIsLast(NamedAddresses(dir, dir[r].base))
  {
    var named, rows := NamedAddresses(dir, dir[r].base), NamedRows(dir);
    NamedRowsDistinct(dir, |dir|);
    assert dir[..|dir|] == dir;
    forall e | e in named ensures Linear(dir, e.typ, e.idx).Hit? {
      if e in rows {
        NamedRowsMeaning(dir, e);
        var q :| 0 <= q < |dir| && e == Named(dir[q].typ, dir[q].idx, 0, dir[q].base + 4);
        BaseOfRow(dir, q);
      } else {
        BaseOfRow(dir, r);
      }
    }
    forall i | 0 <= i < |rows| ensures rows[i].typ != ENTITY {
      assert rows[i] in rows;
      NamedRowsMeaning(dir, rows[i]);
    }
    forall i, j | 0 <= i < j < |named| ensures Differ(named[i], named[j]) {
      if i >= 2 {
        assert Differ(rows[i - 2], rows[j - 2]);
      } else if j >= 2 {
        assert named[j] == rows[j - 2];
      }
    }
    DistinctNamesAreConsistent(named);
  }

  // ----- the model

  datatype Model = Model(rom: Bytes, directory: seq<Entry>, overlays: seq<Overlay>, named: seq<Named>, wb: WriteBack,
                         dynmap: Option<DynMap>, odmap: Option<OdMap>, smap: SMap,
                         l1: Level1, nameMask: nat, nameExc: seq<Named>)

  predicate HasKind(ss: seq<Stream>, kind: Kind) {
    exists s :: s in ss && s.kind == kind
  }

  /** What a specification must state for a model to be built. */
  ghost predicate Buildable(spec: Spec) {
    && Packable(spec) && ClustersNamed(spec)
    && spec.streamOutputs != []
    && HasKind(spec.streamInputs, Aaf) && HasKind(spec.streamInputs, Crf)
    && ListenerAccepts(spec.portsIn) && TalkerAccepts(spec, AnyDynamic(spec.portsIn))
    && RomSize(spec) + 64 <= 0x10000
    && MapsAcceptable(spec)
  }

  /** What a built model is. */
  ghost predicate IsModelOf(m: Model, spec: Spec) {
    && ImageOf(m.rom, m.directory, spec)
    && BaseOf(m.directory, ENTITY, 0).Some? && BaseOf(m.directory, AVB_INTERFACE, 0).Some?
    && m.overlays == ReadOverlays(BaseOf(m.directory, ENTITY, 0).value, BaseOf(m.directory, AVB_INTERFACE, 0).value)
    && m.named == NamedAddresses(m.directory, BaseOf(m.directory, ENTITY, 0).value)
    && WritebackTargets(spec, m.directory) == Ok(m.wb)
    && DynMapTables(spec) == Ok(m.dynmap)
    && (m.odmap.Some? <==> AnyDynamic(spec.portsOut)) && (m.odmap.Some? ==> Coherent(m.odmap.value, spec))
    && SMapOf(m.smap, spec, m.directory)
    && IsLevel1Of(m.l1, m.directory) && Equivalent(m.l1, m.directory)
    && IsSplit(m.l1, m.directory, m.named, m.nameMask, m.nameExc)
    && NamesEquivalent(m.l1, m.directory, m.named, m.nameMask, m.nameExc)
  }

  ghost predicate SMapOf(t: SMap, spec: Spec, dir: seq<Entry>) {
    && MapsConform(spec, dir)
    && (forall k :: 0 <= k < |spec.portsIn| ==>
          Serves(t.inAddr, t.inRows, t.inMoff, InputSide(spec), spec.audioMaps, dir, k))
    && (forall k :: 0 <= k < |spec.portsOut| ==>
          Serves(t.outAddr, t.outRows, t.outMoff, OutputSide(spec), spec.audioMaps, dir, k))
    && t.inDeviations == Deviating(spec.streamInputs, AllMappings(InputSide(spec), spec.audioMaps, |spec.portsIn|))
    && t.outDeviations == Deviating(spec.streamOutputs, AllMappings(OutputSide(spec), spec.audioMaps, |spec.portsOut|))
  }

  lemma {:induction false} InEither(a: seq<Desc>, b: seq<Desc>)
    ensures forall d :: d in a || d in b ==> d in a + b
    ensures a != [] ==> (a + b)[0] == a[0]
  {
  }

  lemma {:induction false} FrontHolds(entity: Bytes, config: Bytes, unit: Bytes, ins: seq<Desc>, outs: seq<Desc>,
                                      avb: Bytes, clocks: seq<Desc>, domain: Bytes, control: Bytes, locale: Bytes,
                                      strings: Bytes)
    ensures var front := [Desc(ENTITY, 0, entity)] + [Desc(CONFIGURATION, 0, config)] + [Desc(AUDIO_UNIT, 0, unit)]
                         + ins + outs + [Desc(AVB_INTERFACE, 0, avb)] + clocks + [Desc(CLOCK_DOMAIN, 0, domain)]
                         + [Desc(CONTROL, 0, control)] + [Desc(LOCALE, 0, locale)] + [Desc(STRINGS, 0, strings)];
            && front[0] == Desc(ENTITY, 0, entity)
            && Desc(AVB_INTERFACE, 0, avb) in front && Desc(AUDIO_UNIT, 0, unit) in front
            && Desc(CLOCK_DOMAIN, 0, domain) in front && Desc(CONTROL, 0, control) in front
            && Desc(CONFIGURATION, 0, config) in front
            && (forall d :: d in ins ==> d in front) && (forall d :: d in outs ==> d in front)
            && (forall d :: d in clocks ==> d in front)
  {
  }

  function ConfigBytes(spec: Spec): Bytes {
    ConfigurationBytes(|spec.streamInputs|, |spec.streamOutputs|, |spec.clockSources|, spec.names.configuration)
  }

  /** Each group of the append order is found in the whole. */
  lemma {:induction false} DescriptorsPresent(spec: Spec)
    requires AllDescriptors(spec).Ok?
    ensures var descs := AllDescriptors(spec).value;
            && descs[0] == Desc(ENTITY, 0, EntityBytes(spec.entity))
            && Desc(AVB_INTERFACE, 0, AvbInterfaceBytes(spec.gptp, spec.names.avbInterface)) in descs
            && Desc(CONFIGURATION, 0, ConfigBytes(spec)) in descs
            && Desc(AUDIO_UNIT, 0, UnitBytes(spec).value) in descs
            && Desc(CLOCK_DOMAIN, 0, ClockDomainBytes(|spec.clockSources|, spec.names.clockDomain)) in descs
            && Desc(CONTROL, 0, ControlIdentifyBytes(spec.names.controlIdentify)) in descs
            && (forall d :: d in StreamDescs(STREAM_INPUT, spec.streamInputs).value ==> d in descs)
            && (forall d :: d in StreamDescs(STREAM_OUTPUT, spec.streamOutputs).value ==> d in descs)
            && (forall d :: d in ClockSourceDescs(spec.clockSources) ==> d in descs)
            && (forall d :: d in PortDescs(STREAM_PORT_INPUT, spec.portsIn) ==> d in descs)
            && (forall d :: d in PortDescs(STREAM_PORT_OUTPUT, spec.portsOut) ==> d in descs)
            && (forall d :: d in ClusterDescs(spec) ==> d in descs)
            && (forall d :: d in MapDescs(spec.audioMaps) ==> d in descs)
  {
    var si, so, nClk := spec.streamInputs, spec.streamOutputs, |spec.clockSources|;
    FrontHolds(EntityBytes(spec.entity), ConfigurationBytes(|si|, |so|, nClk, spec.names.configuration),
               UnitBytes(spec).value, StreamDescs(STREAM_INPUT, si).value, StreamDescs(STREAM_OUTPUT, so).value,
               AvbInterfaceBytes(spec.gptp, spec.names.avbInterface), ClockSourceDescs(spec.clockSources),
               ClockDomainBytes(nClk, spec.names.clockDomain), ControlIdentifyBytes(spec.names.controlIdentify),
               LocaleBytes(spec.locale), StringsBytes(spec.entity.name, spec.ratesString, spec.entity.vendor));
    InEither(EntityDescriptors(spec).value, PortDescriptors(spec).value);
  }

  lemma {:induction false} StreamPresent(spec: Spec, dtype: nat, k: nat)
    requires AllDescriptors(spec).Ok?
    requires dtype == STREAM_INPUT || dtype == STREAM_OUTPUT
    requires k < |if dtype == STREAM_INPUT then spec.streamInputs else spec.streamOutputs|
    ensures var s := (if dtype == STREAM_INPUT then spec.streamInputs else spec.streamOutputs)[k];
            StreamImage(dtype, k, s).Ok? && Desc(dtype, k, StreamImage(dtype, k, s).value) in AllDescriptors(spec).value
  {
    var ss := if dtype == STREAM_INPUT then spec.streamInputs else spec.streamOutputs;
    StreamDescsGroup(dtype, ss);
    var group := StreamDescs(dtype, ss).value;
    assert group[k] in group && group[k] == Desc(dtype, k, StreamImage(dtype, k, ss[k]).value);
    DescriptorsPresent(spec);
  }

  lemma {:induction false} MapPresent(spec: Spec, k: nat)
    requires AllDescriptors(spec).Ok? && k < |spec.audioMaps|
    ensures Desc(AUDIO_MAP, k, AudioMapBytes(k, spec.audioMaps[k])) in AllDescriptors(spec).value
  {
    DescriptorsPresent(spec);
    assert MapDescs(spec.audioMaps)[k] in MapDescs(spec.audioMaps);
  }

  lemma {:induction false} BasesPresent(dir: seq<Entry>, t: nat, n: nat, offset: nat)
    requires forall k :: 0 <= k < n ==> BaseOf(dir, t, k).Some?
    ensures BasesPlus(dir, t, n, offset).Ok? && |BasesPlus(dir, t, n, offset).value| == n
    ensures forall k :: 0 <= k < n ==> BasesPlus(dir, t, n, offset).value[k] == BaseOf(dir, t, k).value + offset
  {
    if n > 0 {
      BasesPresent(dir, t, n - 1, offset);
    }
  }

  ghost predicate Avoids(descs: seq<Desc>, t: nat) {
    forall d :: d in descs ==> d.typ != t
  }

  lemma {:induction false} AvoidsConcat(a: seq<Desc>, b: seq<Desc>, t: nat)
    requires Avoids(a, t) && Avoids(b, t)
    ensures Avoids(a + b, t)
  {
  }

  lemma {:induction false} PortsAvoid(ins: seq<Desc>, outs: seq<Desc>, clusters: seq<Desc>, maps: seq<Desc>)
    requires IsGroup(ins, STREAM_PORT_INPUT) && IsGroup(outs, STREAM_PORT_OUTPUT)
    requires IsGroup(clusters, AUDIO_CLUSTER) && IsGroup(maps, AUDIO_MAP)
    ensures Avoids(ins + outs + clusters + maps, STREAM_OUTPUT)
  {
  }

  lemma {:induction false} FrontAvoids(entity: Bytes, config: Bytes, unit: Bytes, ins: seq<Desc>, avb: Bytes,
                                       clocks: seq<Desc>, domain: Bytes, control: Bytes, locale: Bytes, strings: Bytes)
    requires IsGroup(ins, STREAM_INPUT) && IsGroup(clocks, CLOCK_SOURCE)
    ensures Avoids([Desc(ENTITY, 0, entity)] + [Desc(CONFIGURATION, 0, config)] + [Desc(AUDIO_UNIT, 0, unit)] + ins + []
                   + [Desc(AVB_INTERFACE, 0, avb)] + clocks + [Desc(CLOCK_DOMAIN, 0, domain)]
                   + [Desc(CONTROL, 0, control)] + [Desc(LOCALE, 0, locale)] + [Desc(STRINGS, 0, strings)], STREAM_OUTPUT)
  {
  }

  lemma {:induction false} FrontHasNoOutputs(spec: Spec)
    requires EntityDescriptors(spec).Ok? && spec.streamOutputs == []
    ensures Avoids(EntityDescriptors(spec).value, STREAM_OUTPUT)
  {
    var si, nClk := spec.streamInputs, |spec.clockSources|;
    StreamDescsGroup(STREAM_INPUT, si);
    FrontAvoids(EntityBytes(spec.entity), ConfigurationBytes(|si|, 0, nClk, spec.names.configuration),
                UnitBytes(spec).value,
                StreamDescs(STREAM_INPUT, si).value, AvbInterfaceBytes(spec.gptp, spec.names.avbInterface),
                ClockSourceDescs(spec.clockSources), ClockDomainBytes(nClk, spec.names.clockDomain),
                ControlIdentifyBytes(spec.names.controlIdentify), LocaleBytes(spec.locale),
                StringsBytes(spec.entity.name, spec.ratesString, spec.entity.vendor));
  }

  lemma {:induction false} PortsHaveNoOutputs(spec: Spec)
    requires ClustersNamed(spec)
    ensures Avoids(PortDescriptors(spec).value, STREAM_OUTPUT)
  {
    PortsAvoid(PortDescs(STREAM_PORT_INPUT, spec.portsIn), PortDescs(STREAM_PORT_OUTPUT, spec.portsOut),
               ClusterDescs(spec), MapDescs(spec.audioMaps));
  }

  lemma {:induction false} NoOutputsNoOutputRows(spec: Spec)
    requires AllDescriptors(spec).Ok? && spec.streamOutputs == []
    ensures Avoids(AllDescriptors(spec).value, STREAM_OUTPUT)
  {
    FrontHasNoOutputs(spec);
    PortsHaveNoOutputs(spec);
    AvoidsConcat(EntityDescriptors(spec).value, PortDescriptors(spec).value, STREAM_OUTPUT);
  }

  /** The write-back table needs one output stream, and nothing else the append order does not supply. */
  lemma {:induction false} WritebackNeedsAnOutput(spec: Spec)
    requires AllDescriptors(spec).Ok?
    ensures WritebackTargets(spec, Directory(AllDescriptors(spec).value)).Ok? <==> spec.streamOutputs != []
  {
    var descs := AllDescriptors(spec).value;
    var dir := Directory(descs);
    AppendOrderIsAddressable(spec);
    DescriptorsPresent(spec);
    var unit := UnitBytes(spec).value;
    var b0, r0 := Locate(descs, Desc(AUDIO_UNIT, 0, unit));
    var b1, r1 := Locate(descs, Desc(CLOCK_DOMAIN, 0, ClockDomainBytes(|spec.clockSources|, spec.names.clockDomain)));
    var b2, r2 := Locate(descs, Desc(CONTROL, 0, ControlIdentifyBytes(spec.names.controlIdentify)));
    StreamsLocated(spec, descs);
    BasesPresent(dir, STREAM_INPUT, |spec.streamInputs|, 74);
    BasesPresent(dir, AUDIO_MAP, |spec.audioMaps|, 0);
    if spec.streamOutputs == [] {
      NoOutputsNoOutputRows(spec);
      NoRowOfType(descs, STREAM_OUTPUT);
    }
  }

  lemma {:induction false} StreamsLocated(spec: Spec, descs: seq<Desc>)
    requires AllDescriptors(spec) == Ok(descs) && Addressable(Directory(descs))
    ensures forall k :: 0 <= k < |spec.streamInputs| ==> BaseOf(Directory(descs), STREAM_INPUT, k).Some?
    ensures forall k :: 0 <= k < |spec.streamOutputs| ==> BaseOf(Directory(descs), STREAM_OUTPUT, k).Some?
    ensures forall k :: 0 <= k < |spec.audioMaps| ==> BaseOf(Directory(descs), AUDIO_MAP, k).Some?
  {
    forall k | 0 <= k < |spec.streamInputs| ensures BaseOf(Directory(descs), STREAM_INPUT, k).Some? {
      StreamPresent(spec, STREAM_INPUT, k);
      var b, r := Locate(descs, Desc(STREAM_INPUT, k, StreamImage(STREAM_INPUT, k, spec.streamInputs[k]).value));
    }
    forall k | 0 <= k < |spec.streamOutputs| ensures BaseOf(Directory(descs), STREAM_OUTPUT, k).Some? {
      StreamPresent(spec, STREAM_OUTPUT, k);
      var b, r := Locate(descs, Desc(STREAM_OUTPUT, k, StreamImage(STREAM_OUTPUT, k, spec.streamOutputs[k]).value));
    }
    forall k | 0 <= k < |spec.audioMaps| ensures BaseOf(Directory(descs), AUDIO_MAP, k).Some? {
      MapPresent(spec, k);
      var b, r := Locate(descs, Desc(AUDIO_MAP, k, AudioMapBytes(k, spec.audioMaps[k])));
    }
  }

  lemma {:induction false} NoRowOfType(descs: seq<Desc>, t: nat)
    requires Avoids(descs, t)
    ensures BaseOf(Directory(descs), t, 0) == None
  {
    SpansHoldImages(descs);
    BaseOfMeaning(Directory(descs), t, 0);
    forall r | 0 <= r < |descs| ensures Directory(descs)[r].typ != t {
      assert SpanOf(descs, Rom(descs), Directory(descs), r) && descs[r] in descs;
    }
  }

  /** ENTITY opens the ROM, and AVB_INTERFACE is somewhere behind it. */
  lemma {:induction false} IdentityDescriptorsLocated(spec: Spec) returns (a: nat)
    requires AllDescriptors(spec).Ok?
    ensures var descs := AllDescriptors(spec).value;
            && Located(descs, Desc(ENTITY, 0, EntityBytes(spec.entity)), 0)
            && Directory(descs)[0] == Entry(ENTITY, 0, 0, 312)
            && Located(descs, Desc(AVB_INTERFACE, 0, AvbInterfaceBytes(spec.gptp, spec.names.avbInterface)), a)
            && 312 <= a && a + 102 <= |Rom(descs)|
  {
    var descs := AllDescriptors(spec).value;
    AppendOrderIsAddressable(spec);
    DescriptorsPresent(spec);
    var e := Desc(ENTITY, 0, EntityBytes(spec.entity));
    var avb := Desc(AVB_INTERFACE, 0, AvbInterfaceBytes(spec.gptp, spec.names.avbInterface));
    assert descs[0] in descs;
    var b, r := Locate(descs, e);
    SpansHoldImages(descs);
    SpansAreAdjacent(descs);
    assert SpanOf(descs, Rom(descs), Directory(descs), 0);
    BaseOfRow(Directory(descs), 0);
    var q;
    a, q := Locate(descs, avb);
    LocatedApart(descs, e, avb, 0, a);
  }

  /** The two lookups of an addressable directory: neither gate refuses what its constructor made. */
  method Lookups(dir: seq<Entry>, named: seq<Named>) returns (l1: Level1, mask: nat, exc: seq<Named>)
    requires Addressable(dir) && dir[0].typ == ENTITY && dir[0].idx == 0 && named == NamedAddresses(dir, dir[0].base)
    ensures IsLevel1Of(l1, dir) && Equivalent(l1, dir)
    ensures IsSplit(l1, dir, named, mask, exc) && NamesEquivalent(l1, dir, named, mask, exc)
  {
    NamedAddressesAreSound(dir, 0);
    var table := TwoLevelDirectory(dir);
    l1 := table.value;
    Level1IsExact(l1, dir);
    var pass := CheckTwoLevel(l1, dir);
    assert pass;
    var split := NamedStructure(l1, dir, named);
    mask, exc := split.value.0, split.value.1;
  }

  /** The three map tables, each with its own refusals. */
  method MapTables(spec: Spec, dir: seq<Entry>) returns (res: Result<(Option<DynMap>, Option<OdMap>, SMap)>)
    requires forall bm :: 0 <= bm < |spec.audioMaps| ==> BaseOf(dir, AUDIO_MAP, bm).Some?
    ensures res.Ok? <==>
              ListenerAccepts(spec.portsIn) && TalkerAccepts(spec, AnyDynamic(spec.portsIn)) && MapsAcceptable(spec)
    ensures res.Ok? ==> DynMapTables(spec) == Ok(res.value.0)
    ensures res.Ok? ==> (res.value.1.Some? <==> AnyDynamic(spec.portsOut))
    ensures res.Ok? && res.value.1.Some? ==> Coherent(res.value.1.value, spec)
    ensures res.Ok? ==> SMapOf(res.value.2, spec, dir)
  {
    DynMapMeaning(spec);
    MapsNeedNoMore(spec, dir);
    var dynmap := DynMapTables(spec);
    if dynmap.Err? {
      return Err;
    }
    var odmap := OdMapTables(spec, dynmap.value.Some?);
    if odmap.Err? {
      return Err;
    }
    var smap := StaticMapTables(spec, dir);
    if smap.Err? {
      return Err;
    }
    return Ok((dynmap.value, odmap.value, smap.value));
  }

  /** The image stage: refused exactly when a descriptor cannot be packed or the ROM does not fit. */
  method BuildImage(spec: Spec) returns (res: Result<(Bytes, seq<Entry>)>)
    ensures res.Ok? <==> Packable(spec) && ClustersNamed(spec) && RomSize(spec) + 64 <= 0x10000
    ensures res.Ok? ==> ImageOf(res.value.0, res.value.1, spec)
    ensures res.Ok? ==> BaseOf(res.value.1, ENTITY, 0) == Some(0) && BaseOf(res.value.1, AVB_INTERFACE, 0).Some?
    ensures res.Ok? ==> |res.value.1| > 0 && res.value.1[0] == Entry(ENTITY, 0, 0, 312)
    ensures res.Ok? ==> (WritebackTargets(spec, res.value.1).Ok? <==> spec.streamOutputs != [])
    ensures res.Ok? ==> forall bm :: 0 <= bm < |spec.audioMaps| ==> BaseOf(res.value.1, AUDIO_MAP, bm).Some?
  {
    PackableIsDescribable(spec);
    var described := AllDescriptors(spec);
    if described.Err? {
      return Err;
    }
    AppendOrderIsAddressable(spec);
    DirectoryTilesRom(described.value);
    ghost var avb := IdentityDescriptorsLocated(spec);
    WritebackNeedsAnOutput(spec);
    StreamsLocated(spec, described.value);
    RomLength(spec);
    res := RomImage(described.value);
  }

  ghost predicate ImageOf(rom: Bytes, dir: seq<Entry>, spec: Spec) {
    && AllDescriptors(spec).Ok?
    && rom == Rom(AllDescriptors(spec).value) && dir == Directory(AllDescriptors(spec).value)
    && Tiles(AllDescriptors(spec).value, rom, dir) && FitsStore(rom) && Addressable(dir)
  }

  /**
   A model is built exactly from the buildable specifications: the append order, the two-level
   gate and the name gate never refuse one. What is built is the model of that specification.
   */
  method Build(spec: Spec) returns (res: Result<Model>)
    ensures res.Ok? <==> Buildable(spec)
    ensures res.Ok? ==> IsModelOf(res.value, spec)
  {
    var image := BuildImage(spec);
    if image.Err? {
      return Err;
    }
    var (rom, dir) := image.value;
    var e, a := BaseOf(dir, ENTITY, 0).value, BaseOf(dir, AVB_INTERFACE, 0).value;
    var wb := WritebackTargets(spec, dir);
    if wb.Err? {
      return Err;
    }
    var named := NamedAddresses(dir, e);
    if !HasKind(spec.streamInputs, Aaf) || !HasKind(spec.streamInputs, Crf) {
      return Err;
    }
    var maps := MapTables(spec, dir);
    if maps.Err? {
      return Err;
    }
    var l1, mask, exc := Lookups(dir, named);
    return Ok(Model(rom, dir, ReadOverlays(e, a), named, wb.value, maps.value.0, maps.value.1, maps.value.2, l1, mask, exc));
  }
}
