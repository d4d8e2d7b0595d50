/**
 What a dynamic output port carries at power-on: the role pool of avdecc/aem_specs.py seen through
 the talker map of avdecc/aem_assemble.py.
 */
module PowerOn {
  import opened AemSpec
  import opened Loopback
  import opened TalkerMap
  import opened Wrappers

  // ----- the identity image's origin

  /** Segment g is the port's primary one: the first whose role is primary_role. */
  ghost predicate IsPrimary(pp: PoolPort, g: nat) {
    && g < |pp.pool| && Some(pp.pool[g].role) == pp.primaryRole
    && forall h :: 0 <= h < g ==> Some(pp.pool[h].role) != pp.primaryRole
  }

  /** Every declared offset is the running sum of the widths before it. */
  ghost predicate Contiguous(pool: seq<Segment>) {
    forall g :: 0 <= g < |pool| ==> pool[g].offset == SegmentBase(pool, g)
  }

  lemma {:induction false} FirstOffsetFinds(pool: seq<Segment>, role: Option<Role>, g: nat)
    requires g < |pool| && Some(pool[g].role) == role
    requires forall h :: 0 <= h < g ==> Some(pool[h].role) != role
    ensures FirstOffset(pool, role) == pool[g].offset
  {
    if g > 0 {
      assert pool[1..][g - 1] == pool[g];
      FirstOffsetFinds(pool[1..], role, g - 1);
    }
  }

  lemma {:induction false} FirstOffsetMisses(pool: seq<Segment>, role: Option<Role>)
    requires forall h :: 0 <= h < |pool| ==> Some(pool[h].role) != role
    ensures FirstOffset(pool, role) == 0
  {
    if pool != [] {
      FirstOffsetMisses(pool[1..], role);
    }
  }

  /**
   The image starts at the primary segment's declared offset, which in a contiguous pool is its first
   cluster; without a primary segment it starts at 0.
   */
  lemma {:induction false} IdentityOffsetIsPrimary(pp: PoolPort)
    ensures forall g: nat :: IsPrimary(pp, g) ==> IdentityOffset(pp) == pp.pool[g].offset
    ensures Contiguous(pp.pool) ==> forall g: nat :: IsPrimary(pp, g) ==> IdentityOffset(pp) == SegmentBase(pp.pool, g)
    ensures (forall h :: 0 <= h < |pp.pool| ==> Some(pp.pool[h].role) != pp.primaryRole) ==> IdentityOffset(pp) == 0
  {
    forall g: nat | IsPrimary(pp, g) ensures IdentityOffset(pp) == pp.pool[g].offset {
      FirstOffsetFinds(pp.pool, pp.primaryRole, g);
    }
    if forall h :: 0 <= h < |pp.pool| ==> Some(pp.pool[h].role) != pp.primaryRole {
      FirstOffsetMisses(pp.pool, pp.primaryRole);
    }
  }

  // ----- a port read from the overlay

  /** Output port j of the specification is overlay port pp: its templates, and the origin of its identity image. */
  ghost predicate FromOverlay(spec: Spec, j: nat, pp: PoolPort, lbLane: bool) {
    && j < |spec.portsOut| && pp.dynamic && spec.portsOut[j].dynamic
    && spec.portsOut[j].clusterSources.Some?
    && Filled(spec.portsOut[j].clusterSources.value, pp.pool, Received(spec.streamInputs), j, lbLane, |pp.pool|)
    && spec.portsOut[j].identityOffset == IdentityOffset(pp)
  }

  /** The cluster behind stream channel c of the port is cluster c of its primary segment. */
  lemma {:induction false} PrimaryCluster(spec: Spec, j: nat, pp: PoolPort, lbLane: bool, g: nat, c: nat)
    requires FromOverlay(spec, j, pp, lbLane) && Contiguous(pp.pool) && IsPrimary(pp, g) && c < pp.pool[g].width
    requires TemplatesOf(spec.portsOut[j]).Ok?
    ensures var p := spec.portsOut[j];
            && p.identityOffset + c < p.clusters == |TemplatesOf(p).value|
            && TemplateAt(pp.pool[g].role, Received(spec.streamInputs), j, c, lbLane)
               == Ok(TemplatesOf(p).value[p.identityOffset + c])
  {
    IdentityOffsetIsPrimary(pp);
    assert ClusterFilled(spec.portsOut[j].clusterSources.value, pp.pool, Received(spec.streamInputs), j, lbLane, g, c);
  }

  lemma {:induction false} RouteOf(t: OdMap, spec: Spec, j: nat, c: nat)
    requires Coherent(t, spec) && j < |spec.portsOut| && c < 8
    ensures TemplatesOf(spec.portsOut[j]).Ok? && j < |t.sch| && 8 * j + c < |t.init|
    ensures t.init[8 * j + c] == InitOf(spec.portsOut[j], t.sch[j], c)
  {
    assert PortLaid(spec.portsOut, spec.streamOutputs, j, t.pcbase, t.csrc, t.init);
    assert PortTabled(t, spec.portsOut, spec.streamOutputs, j);
    assert RouteLaid(spec.portsOut[j], t.sch[j], t.init, j, c);
  }

  /**
   A primary loopback segment wakes as an echo: stream channel c of port j is armed exactly when the
   gateware has the lane and the stream fits the bucket, and then reads received stream j channel c.
   */
  lemma {:induction false} PrimaryLoopbackEchoes(t: OdMap, spec: Spec, j: nat, pp: PoolPort, lbLane: bool, g: nat,
                                                 c: nat)
    requires Coherent(t, spec) && FromOverlay(spec, j, pp, lbLane) && Contiguous(pp.pool) && IsPrimary(pp, g)
    requires pp.primaryRole == Some(LoopbackRole) && j < |spec.streamInputs| && c < 8
    requires c < pp.pool[g].width && c < RxWidth(spec.streamInputs[j]) && c < t.sch[j]
    ensures 8 * j + c < |t.init| && (t.init[8 * j + c].v <==> lbLane && j < 8)
    ensures t.init[8 * j + c].v ==>
              && t.pcbase[j] + t.init[8 * j + c].co < |t.csrc|
              && t.csrc[t.pcbase[j] + t.init[8 * j + c].co] == Template(5, j, c / 2, c % 2, true)
  {
    RouteOf(t, spec, j, c);
    PrimaryCluster(spec, j, pp, lbLane, g, c);
    LoopbackReadsOwnStream(spec.streamInputs, j, c);
    TemplateOfCluster(t, spec, j, spec.portsOut[j].identityOffset + c);
  }

  /** A primary physical segment wakes as a wire: stream channel c reads front-end channel c. */
  lemma {:induction false} PrimaryPhysicalIsWired(t: OdMap, spec: Spec, j: nat, pp: PoolPort, lbLane: bool, g: nat,
                                                  c: nat)
    requires Coherent(t, spec) && FromOverlay(spec, j, pp, lbLane) && Contiguous(pp.pool) && IsPrimary(pp, g)
    requires pp.primaryRole == Some(Physical) && c < 8 && c < pp.pool[g].width && c < t.sch[j]
    ensures 8 * j + c < |t.init| && t.init[8 * j + c].v && t.pcbase[j] + t.init[8 * j + c].co < |t.csrc|
    ensures t.csrc[t.pcbase[j] + t.init[8 * j + c].co] == Template(2, 0, c / 2, c % 2, true)
  {
    RouteOf(t, spec, j, c);
    PrimaryCluster(spec, j, pp, lbLane, g, c);
    TemplateOfCluster(t, spec, j, spec.portsOut[j].identityOffset + c);
  }

  /** A primary pilot segment sounds the tone on every channel. */
  lemma {:induction false} PrimaryPilotSounds(t: OdMap, spec: Spec, j: nat, pp: PoolPort, lbLane: bool, g: nat, c: nat)
    requires Coherent(t, spec) && FromOverlay(spec, j, pp, lbLane) && Contiguous(pp.pool) && IsPrimary(pp, g)
    requires pp.primaryRole == Some(Pilot) && c < 8 && c < pp.pool[g].width && c < t.sch[j]
    ensures 8 * j + c < |t.init| && t.init[8 * j + c].v && t.pcbase[j] + t.init[8 * j + c].co < |t.csrc|
    ensures t.csrc[t.pcbase[j] + t.init[8 * j + c].co] == Template(4, 0, 0, 0, true)
  {
    RouteOf(t, spec, j, c);
    PrimaryCluster(spec, j, pp, lbLane, g, c);
    TemplateOfCluster(t, spec, j, spec.portsOut[j].identityOffset + c);
  }

  /** A virtual primary segment stays silent. */
  lemma {:induction false} PrimaryVirtualIsSilent(t: OdMap, spec: Spec, j: nat, pp: PoolPort, lbLane: bool, g: nat,
                                                  c: nat)
    requires Coherent(t, spec) && FromOverlay(spec, j, pp, lbLane) && Contiguous(pp.pool) && IsPrimary(pp, g)
    requires pp.primaryRole == Some(Virtual) && c < 8 && c < pp.pool[g].width
    ensures 8 * j + c < |t.init| && !t.init[8 * j + c].v
  {
    RouteOf(t, spec, j, c);
    PrimaryCluster(spec, j, pp, lbLane, g, c);
  }
}
