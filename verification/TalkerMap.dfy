/** The talker-side dynamic audio-map constants (avdecc/aem_assemble.py, `_odmap_tables`). */
module TalkerMap {
  import opened AemSpec
  import opened Wrappers

  /** One stream channel's power-on route: whether it is armed, and to which cluster offset. */
  datatype Init = Init(v: bool, co: nat)

  datatype OdMap = OdMap(keys: nat, nports: nat, pdyn: seq<bool>, pcls: seq<nat>, pcbase: seq<nat>, pstr: seq<nat>,
                         slotb: seq<nat>, sch: seq<nat>, csrc: seq<Template>, init: seq<Init>)

  const LANE_CHANNELS: nat := 8
  const TONE: nat := 4

  /** Packetizer pair slots one stream occupies. */
  function PairsOf(s: Stream): nat {
    (ChannelsOf(s) + 1) / 2
  }

  /** Where a stream's pair slots start: the slots of the streams before it. */
  function SlotBase(ss: seq<Stream>, k: nat): nat
    requires k <= |ss|
  {
    if k == 0 then 0 else SlotBase(ss, k - 1) + PairsOf(ss[k - 1])
  }

  function StreamOfPort(p: Port, j: nat): nat {
    match p.streamIndex case Some(s) => s case None => j
  }

  const DEAD: Template := Template(0, 0, 0, 0, false)

  /** A port's templates; a static port without them gets dead rows, a dynamic one is ambiguous. */
  function TemplatesOf(p: Port): Result<seq<Template>> {
    match p.clusterSources
    case Some(srcs) => if |srcs| == p.clusters then Ok(srcs) else Err
    case None => if p.dynamic then Err else Ok(seq(p.clusters, _ => DEAD))
  }

  predicate AnyDynamic(ports: seq<Port>) {
    exists p :: p in ports && p.dynamic
  }

  predicate PortUsable(p: Port, j: nat, nStreams: nat) {
    TemplatesOf(p).Ok? && StreamOfPort(p, j) < nStreams
  }

  /** Stream channel c of a port is armed at power-on: it exists, its cluster exists and really projects. */
  predicate Armed(p: Port, channels: nat, c: nat)
    requires TemplatesOf(p).Ok?
  {
    var co := p.identityOffset + c;
    c < channels && co < p.clusters
    && TemplatesOf(p).value[co].valid
    && (TemplatesOf(p).value[co].src == TONE || TemplatesOf(p).value[co].half == c % 2)
  }

  function InitOf(p: Port, channels: nat, c: nat): Init
    requires TemplatesOf(p).Ok?
  {
    if Armed(p, channels, c) then Init(true, p.identityOffset + c) else Init(false, 0)
  }

  /** The first k ports' templates and routes, each in its own place. */
  ghost predicate Laid(ports: seq<Port>, streams: seq<Stream>, k: nat, pcbase: seq<nat>, csrc: seq<Template>,
                       init: seq<Init>)
    requires k <= |ports|
  {
    && |pcbase| == k && |init| == LANE_CHANNELS * k
    && |csrc| == Clusters(ports[..k])
    && forall j :: 0 <= j < k ==> PortLaid(ports, streams, j, pcbase, csrc, init)
  }

  ghost predicate PortLaid(ports: seq<Port>, streams: seq<Stream>, j: nat, pcbase: seq<nat>, csrc: seq<Template>,
                           init: seq<Init>)
    requires j < |ports| && j < |pcbase|
  {
    var p := ports[j];
    && PortUsable(p, j, |streams|)
    && pcbase[j] == Clusters(ports[..j]) && pcbase[j] + p.clusters <= |csrc|
    && csrc[pcbase[j]..pcbase[j] + p.clusters] == TemplatesOf(p).value
    && 8 * j + 8 <= |init|
    && forall c :: 0 <= c < 8 ==> RouteLaid(p, ChannelsOf(streams[StreamOfPort(p, j)]), init, j, c)
  }

  ghost predicate RouteLaid(p: Port, channels: nat, init: seq<Init>, j: nat, c: nat)
    requires TemplatesOf(p).Ok? && c < 8 && 8 * j + 8 <= |init|
  {
    init[8 * j + c] == InitOf(p, channels, c)
  }

  /** The emitted tables: the templates and routes above, and each port's stream, slots and width. */
  ghost predicate Coherent(t: OdMap, spec: Spec) {
    var ports, streams := spec.portsOut, spec.streamOutputs;
    && t.nports == |ports| && t.keys == 8 * |ports|
    && |t.pdyn| == |t.pcls| == |t.pstr| == |t.slotb| == |t.sch| == |ports|
    && Laid(ports, streams, |ports|, t.pcbase, t.csrc, t.init)
    && forall j :: 0 <= j < |ports| ==> PortTabled(t, ports, streams, j)
  }

  ghost predicate PortTabled(t: OdMap, ports: seq<Port>, streams: seq<Stream>, j: nat)
    requires j < |ports| == |t.pdyn| == |t.pcls| == |t.pstr| == |t.slotb| == |t.sch|
  {
    var s := StreamOfPort(ports[j], j);
    && s < |streams| && t.pstr[j] == s && t.pdyn[j] == ports[j].dynamic && t.pcls[j] == ports[j].clusters
    && t.slotb[j] == SlotBase(streams, s) && t.sch[j] == ChannelsOf(streams[s])
  }

  /** What the generator demands once some output port is dynamic. */
  ghost predicate TalkerAccepts(spec: Spec, dynmapEmit: bool) {
    AnyDynamic(spec.portsOut) ==>
      && dynmapEmit
      && (forall s :: s in spec.streamOutputs ==> s.formats != [])
      && AllUsable(spec)
  }

  ghost predicate AllUsable(spec: Spec) {
    forall j :: 0 <= j < |spec.portsOut| ==> PortUsable(spec.portsOut[j], j, |spec.streamOutputs|)
  }

  lemma {:induction false} LaidIsUsable(spec: Spec, pcbase: seq<nat>, csrc: seq<Template>, init: seq<Init>)
    requires Laid(spec.portsOut, spec.streamOutputs, |spec.portsOut|, pcbase, csrc, init)
    ensures AllUsable(spec)
  {
    forall j | 0 <= j < |spec.portsOut| ensures PortUsable(spec.portsOut[j], j, |spec.streamOutputs|) {
      assert PortLaid(spec.portsOut, spec.streamOutputs, j, pcbase, csrc, init);
    }
  }

  lemma {:induction false} LaidStep(ports: seq<Port>, streams: seq<Stream>, k: nat, pcbase: seq<nat>,
                                    csrc: seq<Template>, init: seq<Init>, more: seq<Init>)
    requires k < |ports| && Laid(ports, streams, k, pcbase, csrc, init) && PortUsable(ports[k], k, |streams|)
    requires |more| == 8
    requires forall c :: 0 <= c < 8 ==> more[c] == InitOf(ports[k], ChannelsOf(streams[StreamOfPort(ports[k], k)]), c)
    ensures Laid(ports, streams, k + 1, pcbase + [|csrc|], csrc + TemplatesOf(ports[k]).value, init + more)
  {
    var pc, cs, ini := pcbase + [|csrc|], csrc + TemplatesOf(ports[k]).value, init + more;
    assert ports[..k + 1][..k] == ports[..k];
    forall j | 0 <= j <= k ensures PortLaid(ports, streams, j, pc, cs, ini) {
      if j < k {
        assert PortLaid(ports, streams, j, pcbase, csrc, init);
        assert cs[pc[j]..pc[j] + ports[j].clusters] == csrc[pc[j]..pc[j] + ports[j].clusters];
        forall c | 0 <= c < 8 ensures RouteLaid(ports[j], ChannelsOf(streams[StreamOfPort(ports[j], j)]), ini, j, c) {
          assert RouteLaid(ports[j], ChannelsOf(streams[StreamOfPort(ports[j], j)]), init, j, c);
        }
      }
    }
  }

  /** The eight routes of one port. */
  method PortInit(p: Port, srcs: seq<Template>, channels: nat) returns (init: seq<Init>)
    requires TemplatesOf(p) == Ok(srcs)
    ensures |init| == 8 && forall c :: 0 <= c < 8 ==> init[c] == InitOf(p, channels, c)
  {
    init := [];
    for c := 0 to LANE_CHANNELS
      invariant |init| == c && forall q :: 0 <= q < c ==> init[q] == InitOf(p, channels, q)
    {
      var co := p.identityOffset + c;
      var ok := c < channels && co < p.clusters && srcs[co].valid && (srcs[co].src == TONE || srcs[co].half == c % 2);
      init := init + [Init(ok, if ok then co else 0)];
    }
  }

  function Table(spec: Spec, bases: seq<nat>, pcbase: seq<nat>, csrc: seq<Template>, init: seq<Init>): OdMap
    requires |bases| == |spec.streamOutputs|
    requires AllUsable(spec)
  {
    assert forall j :: 0 <= j < |spec.portsOut| ==> PortUsable(spec.portsOut[j], j, |spec.streamOutputs|);
    var ports, n := spec.portsOut, |spec.portsOut|;
    OdMap(8 * n, n,
          seq(n, j requires 0 <= j < n => ports[j].dynamic),
          seq(n, j requires 0 <= j < n => ports[j].clusters),
          pcbase,
          seq(n, j requires 0 <= j < n => StreamOfPort(ports[j], j)),
          seq(n, j requires 0 <= j < n => bases[StreamOfPort(ports[j], j)]),
          seq(n, j requires 0 <= j < n => ChannelsOf(spec.streamOutputs[StreamOfPort(ports[j], j)])),
          csrc, init)
  }

  lemma {:induction false} AllPortsTabled(spec: Spec, bases: seq<nat>, pcbase: seq<nat>, csrc: seq<Template>,
                                          init: seq<Init>)
    requires |bases| == |spec.streamOutputs|
    requires forall i :: 0 <= i < |bases| ==> bases[i] == SlotBase(spec.streamOutputs, i)
    requires Laid(spec.portsOut, spec.streamOutputs, |spec.portsOut|, pcbase, csrc, init)
    requires AllUsable(spec)
    ensures Coherent(Table(spec, bases, pcbase, csrc, init), spec)
  {
    var ports, streams := spec.portsOut, spec.streamOutputs;
    var t := Table(spec, bases, pcbase, csrc, init);
    forall j | 0 <= j < |ports| ensures PortTabled(t, ports, streams, j) {
      assert PortUsable(ports[j], j, |streams|);
    }
  }

  ghost predicate BasesAre(bases: seq<nat>, streams: seq<Stream>, k: nat) {
    |bases| == k <= |streams| && forall i :: 0 <= i < k ==> bases[i] == SlotBase(streams, i)
  }

  lemma {:induction false} BasesStep(bases: seq<nat>, streams: seq<Stream>, k: nat)
    requires k < |streams| && BasesAre(bases, streams, k)
    ensures BasesAre(bases + [SlotBase(streams, k)], streams, k + 1)
    ensures SlotBase(streams, k + 1) == SlotBase(streams, k) + PairsOf(streams[k])
  {
  }

  /** The running pair-slot base of each stream. */
  method SlotBases(streams: seq<Stream>) returns (bases: seq<nat>)
    ensures |bases| == |streams| && forall i :: 0 <= i < |streams| ==> bases[i] == SlotBase(streams, i)
  {
    bases := [];
    var acc := 0;
    for k := 0 to |streams|
      invariant acc == SlotBase(streams, k) && BasesAre(bases, streams, k)
    {
      BasesStep(bases, streams, k);
      bases := bases + [acc];
      acc := acc + PairsOf(streams[k]);
    }
  }

  /** Nothing when no output port is dynamic, else the coherent tables of exactly the accepted specs. */
  method OdMapTables(spec: Spec, dynmapEmit: bool) returns (res: Result<Option<OdMap>>)
    ensures res.Ok? <==> TalkerAccepts(spec, dynmapEmit)
    ensures res.Ok? ==> (res.value.Some? <==> AnyDynamic(spec.portsOut))
    ensures res.Ok? && res.value.Some? ==> Coherent(res.value.value, spec)
  {
    var ports, streams := spec.portsOut, spec.streamOutputs;
    if !AnyDynamic(ports) {
      return Ok(None);
    }
    if !dynmapEmit || exists s :: s in streams && s.formats == [] {
      return Err;
    }
    var bases := SlotBases(streams);
    var pcbase: seq<nat>, csrc: seq<Template>, init: seq<Init> := [], [], [];
    for j := 0 to |ports|
      invariant Laid(ports, streams, j, pcbase, csrc, init)
    {
      var p := ports[j];
      var srcs := TemplatesOf(p);
      if srcs.Err? || StreamOfPort(p, j) >= |streams| {
        assert !PortUsable(p, j, |streams|);
        return Err;
      }
      var more := PortInit(p, srcs.value, ChannelsOf(streams[StreamOfPort(p, j)]));
      LaidStep(ports, streams, j, pcbase, csrc, init, more);
      pcbase := pcbase + [|csrc|];
      csrc := csrc + srcs.value;
      init := init + more;
    }
    LaidIsUsable(spec, pcbase, csrc, init);
    AllPortsTabled(spec, bases, pcbase, csrc, init);
    return Ok(Some(Table(spec, bases, pcbase, csrc, init)));
  }

  // ----- what the tables mean

  /** Every template is reachable through its port, at PCBASE plus the cluster offset. */
  lemma {:induction false} TemplateOfCluster(t: OdMap, spec: Spec, j: nat, co: nat)
    requires Coherent(t, spec) && j < |spec.portsOut| && co < spec.portsOut[j].clusters
    ensures t.pcbase[j] + co < |t.csrc|
    ensures TemplatesOf(spec.portsOut[j]).Ok? && co < |TemplatesOf(spec.portsOut[j]).value|
    ensures t.csrc[t.pcbase[j] + co] == TemplatesOf(spec.portsOut[j]).value[co]
  {
    assert PortLaid(spec.portsOut, spec.streamOutputs, j, t.pcbase, t.csrc, t.init);
    var b := t.pcbase[j];
    assert t.csrc[b..b + spec.portsOut[j].clusters][co] == t.csrc[b + co];
  }

  /** A port's stream, clusters, slots and width, in the specification's own numbers. */
  lemma {:induction false} PortRowIsStated(t: OdMap, spec: Spec, j: nat)
    requires Coherent(t, spec) && j < |spec.portsOut|
    ensures var p := spec.portsOut[j];
            && t.pdyn[j] == p.dynamic && t.pcls[j] == p.clusters && t.pcbase[j] == Clusters(spec.portsOut[..j])
            && (p.streamIndex.Some? ==> t.pstr[j] == p.streamIndex.value) && (p.streamIndex.None? ==> t.pstr[j] == j)
            && t.pstr[j] < |spec.streamOutputs| && t.sch[j] == ChannelsOf(spec.streamOutputs[t.pstr[j]])
  {
    assert PortLaid(spec.portsOut, spec.streamOutputs, j, t.pcbase, t.csrc, t.init);
    assert PortTabled(t, spec.portsOut, spec.streamOutputs, j);
  }

  /** Templates are the stated ones, one per cluster; a static port may state none and then feeds nothing. */
  lemma {:induction false} TemplatesAreStated(p: Port)
    ensures TemplatesOf(p).Ok? <==>
            (p.clusterSources.Some? ==> |p.clusterSources.value| == p.clusters) && (p.clusterSources.None? ==> !p.dynamic)
    ensures TemplatesOf(p).Ok? ==> |TemplatesOf(p).value| == p.clusters
    ensures TemplatesOf(p).Ok? && p.clusterSources.Some? ==> TemplatesOf(p).value == p.clusterSources.value
    ensures TemplatesOf(p).Ok? && p.clusterSources.None? ==>
              forall co :: 0 <= co < p.clusters ==>
                && !TemplatesOf(p).value[co].valid && TemplatesOf(p).value[co].src == 0
                && TemplatesOf(p).value[co].idxh == TemplatesOf(p).value[co].idx == TemplatesOf(p).value[co].half == 0
  {
  }

  /** A route is armed exactly inside its stream and its port, on a live source of its half or the tone. */
  lemma {:induction false} ArmedRouteIsLive(t: OdMap, spec: Spec, j: nat, c: nat)
    requires Coherent(t, spec) && j < |spec.portsOut| && c < 8
    ensures |t.init| == 8 * |spec.portsOut| && 8 * j + c < |t.init|
    ensures var (e, co) := (t.init[8 * j + c], spec.portsOut[j].identityOffset + c);
            && (co < t.pcls[j] ==> t.pcbase[j] + co < |t.csrc|)
            && (e.v <==> && c < t.sch[j] && co < t.pcls[j] && t.csrc[t.pcbase[j] + co].valid
                         && (t.csrc[t.pcbase[j] + co].src == 4 || t.csrc[t.pcbase[j] + co].half == c % 2))
            && e.co == if e.v then co else 0
  {
    assert PortLaid(spec.portsOut, spec.streamOutputs, j, t.pcbase, t.csrc, t.init);
    assert PortTabled(t, spec.portsOut, spec.streamOutputs, j);
    assert RouteLaid(spec.portsOut[j], t.sch[j], t.init, j, c);
    if spec.portsOut[j].identityOffset + c < t.pcls[j] {
      TemplateOfCluster(t, spec, j, spec.portsOut[j].identityOffset + c);
    }
  }

  lemma {:induction false} SlotBaseGrows(ss: seq<Stream>, a: nat, b: nat)
    requires a <= b <= |ss|
    ensures SlotBase(ss, a) <= SlotBase(ss, b)
  {
    if a < b {
      SlotBaseGrows(ss, a, b - 1);
    }
  }

  ghost predicate OwnsSlot(ss: seq<Stream>, k: nat, slot: nat)
    requires k < |ss|
  {
    SlotBase(ss, k) <= slot < SlotBase(ss, k) + PairsOf(ss[k])
  }

  /** A stream owns exactly the slots that carry one of its channels, two to a slot. */
  lemma {:induction false} OwnedSlotCarriesAChannel(ss: seq<Stream>, k: nat, slot: nat)
    requires k < |ss|
    ensures OwnsSlot(ss, k, slot) <==> SlotBase(ss, k) <= slot && 2 * (slot - SlotBase(ss, k)) < ChannelsOf(ss[k])
  {
  }

  /** The first stream's slots start at 0, each next stream's right behind, two channels to a slot. */
  lemma {:induction false} SlotsFollow(t: OdMap, spec: Spec, i: nat, j: nat)
    requires Coherent(t, spec) && i < |spec.portsOut| && j < |spec.portsOut|
    ensures t.pstr[i] == 0 ==> t.slotb[i] == 0
    ensures t.pstr[j] == t.pstr[i] + 1 ==> t.slotb[j] == t.slotb[i] + (t.sch[i] + 1) / 2
    ensures t.pstr[j] == t.pstr[i] ==> t.slotb[j] == t.slotb[i] && t.sch[j] == t.sch[i]
  {
    assert PortTabled(t, spec.portsOut, spec.streamOutputs, i) && PortTabled(t, spec.portsOut, spec.streamOutputs, j);
  }

  /** Past streams no port carries, too: a slot base is the sum of the half-widths before it. */
  lemma {:induction false} SlotBaseIsASum(ss: seq<Stream>, k: nat)
    requires k <= |ss|
    ensures SlotBase(ss, 0) == 0
    ensures k < |ss| ==> SlotBase(ss, k + 1) == SlotBase(ss, k) + (ChannelsOf(ss[k]) + 1) / 2
  {
  }

  /** Pair-slot intervals of different streams are disjoint. */
  lemma {:induction false} SlotHasOneOwner(ss: seq<Stream>, a: nat, b: nat, slot: nat)
    requires a < |ss| && b < |ss| && OwnsSlot(ss, a, slot) && OwnsSlot(ss, b, slot)
    ensures a == b
  {
    if a < b {
      SlotBaseGrows(ss, a + 1, b);
    } else if b < a {
      SlotBaseGrows(ss, b + 1, a);
    }
  }

  /** Together the intervals cover the slots from 0 without a gap. */
  lemma {:induction false} SlotHasAnOwner(ss: seq<Stream>, n: nat, slot: nat) returns (k: nat)
    requires n <= |ss| && slot < SlotBase(ss, n)
    ensures k < n && OwnsSlot(ss, k, slot)
  {
    if slot < SlotBase(ss, n - 1) {
      k := SlotHasAnOwner(ss, n - 1, slot);
    } else {
      k := n - 1;
    }
  }

  /** Two ports on different streams never share a pair slot. */
  lemma {:induction false} PortSlotsAreDisjoint(t: OdMap, spec: Spec, i: nat, j: nat, slot: nat)
    requires Coherent(t, spec) && i < |spec.portsOut| && j < |spec.portsOut| && t.pstr[i] != t.pstr[j]
    ensures !(t.slotb[i] <= slot < t.slotb[i] + (t.sch[i] + 1) / 2
              && t.slotb[j] <= slot < t.slotb[j] + (t.sch[j] + 1) / 2)
  {
    var streams := spec.streamOutputs;
    assert PortTabled(t, spec.portsOut, streams, i) && PortTabled(t, spec.portsOut, streams, j);
    if t.slotb[i] <= slot < t.slotb[i] + (t.sch[i] + 1) / 2 && t.slotb[j] <= slot < t.slotb[j] + (t.sch[j] + 1) / 2 {
      SlotHasOneOwner(streams, t.pstr[i], t.pstr[j], slot);
    }
  }
}
