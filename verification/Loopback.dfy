/** The source templates of a dynamic output port (avdecc/aem_specs.py, `_out_cluster_sources`). */
module Loopback {
  import opened AemSpec
  import opened Sequences
  import opened Wrappers

  datatype Role = Physical | Pilot | LoopbackRole | Virtual | Unsupported

  datatype Segment = Segment(role: Role, width: nat, offset: nat)

  datatype PoolPort = PoolPort(dynamic: bool, pool: seq<Segment>, primaryRole: Option<Role>)

  /** A received stream channel. */
  datatype RxChannel = RxChannel(stream: nat, channel: nat)

  /** The channels an input receives: a CRF one carries a clock. */
  function RxWidth(s: Stream): nat {
    if s.kind == Aaf then ChannelsOf(s) else 0
  }

  /** The received channel space: every AAF input's channels, stream by stream. */
  function Received(ss: seq<Stream>): seq<RxChannel> {
    if ss == [] then []
    else
      var n := |ss| - 1;
      Received(ss[..n]) + Channels(n, RxWidth(ss[n]))
  }

  function Channels(stream: nat, width: nat): seq<RxChannel> {
    seq(width, (c: nat) => RxChannel(stream, c))
  }

  predicate FormatsPresent(ss: seq<Stream>) {
    forall s :: s in ss && s.kind == Aaf ==> s.formats != []
  }

  /** `next(k for k, (si, c) in enumerate(rx) if si == j and c == 0)`, or 0. */
  function StartOf(rx: seq<RxChannel>, j: nat): (k: nat)
    ensures rx != [] ==> k < |rx|
  {
    if RxChannel(j, 0) in rx then FirstAt(rx, RxChannel(j, 0)) else 0
  }

  function FirstAt(rx: seq<RxChannel>, ch: RxChannel): (k: nat)
    requires ch in rx
    ensures k < |rx| && rx[k] == ch && ch !in rx[..k]
  {
    if rx[0] == ch then 0
    else
      var k := FirstAt(rx[1..], ch);
      assert rx[..k + 1] == [rx[0]] + rx[1..][..k];
      k + 1
  }

  /** The received channel loopback cluster n of port j reads. */
  function LoopbackChannel(rx: seq<RxChannel>, j: nat, n: nat): RxChannel {
    if rx == [] then RxChannel(0, n) else rx[(StartOf(rx, j) + n) % |rx|]
  }

  /** Cluster n of one segment, in capture-bucket terms. */
  function TemplateAt(role: Role, rx: seq<RxChannel>, j: nat, n: nat, lbLane: bool): Result<Template> {
    match role
    case Physical => Ok(Template(2, 0, n / 2, n % 2, n / 2 < 4))
    case Pilot => Ok(Template(4, 0, 0, 0, true))
    case LoopbackRole =>
      var ch := LoopbackChannel(rx, j, n);
      Ok(Template(5, ch.stream, ch.channel / 2, ch.channel % 2, lbLane && ch.stream < 8 && ch.channel < 8))
    case Virtual => Ok(Template(0, 0, 0, n % 2, false))
    case Unsupported => Err
  }

  function Widths(pool: seq<Segment>): seq<nat> {
    seq(|pool|, g requires 0 <= g < |pool| => pool[g].width)
  }

  /** Where segment g's clusters start in the port's cluster list. */
  function SegmentBase(pool: seq<Segment>, g: nat): nat
    requires g <= |pool|
  {
    Sum(Widths(pool)[..g])
  }

  ghost predicate PoolSupported(pool: seq<Segment>) {
    forall g :: g in pool ==> g.role == Unsupported ==> g.width == 0
  }

  /** The first g segments' clusters, each its segment's template at its own offset. */
  ghost predicate Filled(srcs: seq<Template>, pool: seq<Segment>, rx: seq<RxChannel>, j: nat, lbLane: bool, g: nat)
    requires g <= |pool|
  {
    && |srcs| == SegmentBase(pool, g)
    && forall q, n :: 0 <= q < g && 0 <= n < pool[q].width ==> ClusterFilled(srcs, pool, rx, j, lbLane, q, n)
  }

  ghost predicate ClusterFilled(srcs: seq<Template>, pool: seq<Segment>, rx: seq<RxChannel>, j: nat, lbLane: bool,
                                q: nat, n: nat)
    requires q < |pool|
  {
    SegmentBase(pool, q) + n < |srcs|
    && TemplateAt(pool[q].role, rx, j, n, lbLane) == Ok(srcs[SegmentBase(pool, q) + n])
  }

  method SegmentTemplates(g: Segment, rx: seq<RxChannel>, j: nat, lbLane: bool) returns (res: Result<seq<Template>>)
    ensures res.Err? <==> g.role == Unsupported && g.width > 0
    ensures res.Ok? ==> |res.value| == g.width
    ensures res.Ok? ==> forall n :: 0 <= n < g.width ==> TemplateAt(g.role, rx, j, n, lbLane) == Ok(res.value[n])
  {
    var srcs := [];
    for n := 0 to g.width
      invariant |srcs| == n
      invariant forall q :: 0 <= q < n ==> TemplateAt(g.role, rx, j, q, lbLane) == Ok(srcs[q])
    {
      var t := TemplateAt(g.role, rx, j, n, lbLane);
      if t.Err? {
        return Err;
      }
      srcs := srcs + [t.value];
    }
    assert g.width > 0 ==> TemplateAt(g.role, rx, j, 0, lbLane) == Ok(srcs[0]);
    return Ok(srcs);
  }

  lemma {:induction false} FilledStep(srcs: seq<Template>, more: seq<Template>, pool: seq<Segment>, rx: seq<RxChannel>,
                                      j: nat, lbLane: bool, g: nat)
    requires g < |pool| && Filled(srcs, pool, rx, j, lbLane, g) && |more| == pool[g].width
    requires forall n :: 0 <= n < |more| ==> TemplateAt(pool[g].role, rx, j, n, lbLane) == Ok(more[n])
    ensures Filled(srcs + more, pool, rx, j, lbLane, g + 1)
  {
    assert Widths(pool)[..g + 1][..g] == Widths(pool)[..g];
    forall q, n | 0 <= q <= g && 0 <= n < pool[q].width ensures ClusterFilled(srcs + more, pool, rx, j, lbLane, q, n) {
      if q < g {
        assert ClusterFilled(srcs, pool, rx, j, lbLane, q, n);
      }
    }
  }

  /** A static port needs no templates; a dynamic one needs a pool of supported roles. */
  method OutClusterSources(streams: seq<Stream>, j: nat, p: PoolPort, lbLane: bool)
    returns (res: Result<Option<seq<Template>>>)
    ensures res.Ok? <==> (p.dynamic ==> p.pool != [] && FormatsPresent(streams) && PoolSupported(p.pool))
    ensures res.Ok? ==> (res.value.Some? <==> p.dynamic)
    ensures res.Ok? && p.dynamic ==>
              |res.value.value| == Sum(Widths(p.pool)) && Filled(res.value.value, p.pool, Received(streams), j, lbLane, |p.pool|)
  {
    if !p.dynamic {
      return Ok(None);
    }
    if p.pool == [] {
      return Err;
    }
    var rx: seq<RxChannel> := [];
    for si := 0 to |streams|
      invariant rx == Received(streams[..si]) && FormatsPresent(streams[..si])
    {
      assert streams[..si + 1] == streams[..si] + [streams[si]];
      assert streams[..si + 1][..si] == streams[..si];
      if streams[si].kind != Aaf {
        assert Channels(si, 0) == [];
        continue;
      }
      if streams[si].formats == [] {
        assert streams[si] in streams;
        return Err;
      }
      rx := rx + Channels(si, ChannelsOf(streams[si]));
    }
    assert streams[..|streams|] == streams;
    var srcs: seq<Template> := [];
    for g := 0 to |p.pool|
      invariant Filled(srcs, p.pool, rx, j, lbLane, g)
      invariant forall q :: 0 <= q < g ==> p.pool[q].role == Unsupported ==> p.pool[q].width == 0
    {
      var more := SegmentTemplates(p.pool[g], rx, j, lbLane);
      if more.Err? {
        assert p.pool[g] in p.pool;
        return Err;
      }
      FilledStep(srcs, more.value, p.pool, rx, j, lbLane, g);
      srcs := srcs + more.value;
    }
    assert Widths(p.pool)[..|p.pool|] == Widths(p.pool);
    return Ok(Some(srcs));
  }

  // ----- the flattened receive walk

  /** Where stream j's channels start in the received space. */
  function RxBase(ss: seq<Stream>, j: nat): nat
    requires j <= |ss|
  {
    |Received(ss[..j])|
  }

  lemma {:induction false} ReceivedAt(ss: seq<Stream>, j: nat, n: nat)
    requires j < |ss| && n < RxWidth(ss[j])
    ensures RxBase(ss, j) + n < |Received(ss)| && Received(ss)[RxBase(ss, j) + n] == RxChannel(j, n)
  {
    var last := |ss| - 1;
    if j < last {
      ReceivedAt(ss[..last], j, n);
      assert ss[..last][..j] == ss[..j];
    }
  }

  /** The received space holds exactly the channels of AAF inputs. */
  lemma {:induction false} ReceivedMembers(ss: seq<Stream>, ch: RxChannel)
    ensures ch in Received(ss) <==>
            ch.stream < |ss| && ss[ch.stream].kind == Aaf && ch.channel < ChannelsOf(ss[ch.stream])
  {
    if ss != [] {
      var last := |ss| - 1;
      ReceivedMembers(ss[..last], ch);
      var tail := Channels(last, RxWidth(ss[last]));
      if ch.stream == last && ch.channel < RxWidth(ss[last]) {
        assert tail[ch.channel] == ch;
      }
    }
  }

  /** Each received channel appears once. */
  lemma {:induction false} ReceivedDistinct(ss: seq<Stream>)
    ensures Distinct(Received(ss))
  {
    if ss != [] {
      var last := |ss| - 1;
      ReceivedDistinct(ss[..last]);
      forall ch | ch in Received(ss[..last]) ensures ch.stream < last {
        ReceivedMembers(ss[..last], ch);
      }
      DistinctConcat(Received(ss[..last]), Channels(last, RxWidth(ss[last])));
    }
  }

  lemma {:induction false} Multiples(d: int, m: nat)
    ensures d > 0 ==> d * m >= m
    ensures d < 0 ==> d * m + m <= 0
  {
    if d > 0 {
      assert (d - 1) * m >= 0;
    } else if d < 0 {
      assert (-d - 1) * m >= 0;
    }
  }

  /** A quotient and remainder are the only ones. */
  lemma {:induction false} DivUnique(x: int, q: int, r: int, m: nat)
    requires 0 <= r < m && x == q * m + r
    ensures x % m == r
  {
    var d := x / m - q;
    assert d * m == r - x % m;
    Multiples(d, m);
  }

  lemma {:induction false} SmallMod(x: nat, m: nat)
    requires x < m
    ensures x % m == x
  {
  }

  /** Some step below m moves s onto k. */
  lemma {:induction false} Landing(s: nat, k: nat, m: nat) returns (d: nat)
    requires k < m
    ensures d < m && (s + d) % m == k
  {
    var q, r := s / m, s % m;
    assert s == q * m + r;
    if k >= r {
      d := k - r;
      DivUnique(s + d, q, k, m);
    } else {
      d := k + m - r;
      assert (q + 1) * m == q * m + m;
      DivUnique(s + d, q + 1, k, m);
    }
  }

  lemma {:induction false} ModWindow(a: nat, b: nat, m: nat)
    requires m > 0 && a < b < a + m
    ensures a % m != b % m
  {
    var d := b / m - a / m;
    assert b - a == d * m + (b % m - a % m);
    Multiples(d, m);
  }

  lemma {:induction false} LoopbackBeforeWrap(rx: seq<RxChannel>, j: nat, n: nat)
    requires StartOf(rx, j) + n < |rx|
    ensures LoopbackChannel(rx, j, n) == rx[StartOf(rx, j) + n]
  {
    SmallMod(StartOf(rx, j) + n, |rx|);
  }

  lemma {:induction false} StartOfStream(ss: seq<Stream>, j: nat)
    requires j < |ss| && 0 < RxWidth(ss[j])
    ensures StartOf(Received(ss), j) == RxBase(ss, j)
  {
    var rx := Received(ss);
    ReceivedAt(ss, j, 0);
    ReceivedDistinct(ss);
    DistinctIndex(rx, StartOf(rx, j), RxBase(ss, j));
  }

  /** Loopback cluster n of port j reads channel n of stream j, as far as that stream is wide. */
  lemma {:induction false} LoopbackReadsOwnStream(ss: seq<Stream>, j: nat, n: nat)
    requires j < |ss| && n < RxWidth(ss[j])
    ensures LoopbackChannel(Received(ss), j, n) == RxChannel(j, n)
  {
    StartOfStream(ss, j);
    ReceivedAt(ss, j, n);
    LoopbackBeforeWrap(Received(ss), j, n);
  }

  /** Past its own stream a port reads on through the received space, and wraps; without one it starts at 0. */
  lemma {:induction false} LoopbackWraps(ss: seq<Stream>, j: nat, n: nat)
    ensures var rx := Received(ss);
            LoopbackChannel(rx, j, n) ==
            if rx == [] then RxChannel(0, n)
            else if j < |ss| && ss[j].kind == Aaf && ChannelsOf(ss[j]) > 0 then rx[(RxBase(ss, j) + n) % |rx|]
            else rx[n % |rx|]
  {
    ReceivedMembers(ss, RxChannel(j, 0));
    if j < |ss| && RxWidth(ss[j]) > 0 {
      StartOfStream(ss, j);
    }
  }

  /** What cluster n of a segment reads, role by role: 2 a front-end pair, 4 the tone, 5 a received channel, 0 nothing. */
  lemma {:induction false} TemplateByRole(role: Role, rx: seq<RxChannel>, j: nat, n: nat, lbLane: bool)
    ensures TemplateAt(role, rx, j, n, lbLane).Err? <==> role == Unsupported
    ensures TemplateAt(role, rx, j, n, lbLane).Ok? ==>
              var t := TemplateAt(role, rx, j, n, lbLane).value;
              && t.half < 2
              && (role == Physical ==> t.src == 2 && t.idxh == 0 && 2 * t.idx + t.half == n && (t.valid <==> n < 8))
              && (role == Pilot ==> t.src == 4 && t.idxh == t.idx == t.half == 0 && t.valid)
              && (role == Virtual ==> t.src == 0 && t.idxh == t.idx == 0 && (n - t.half) % 2 == 0 && !t.valid)
              && (role == LoopbackRole ==>
                    var ch := LoopbackChannel(rx, j, n);
                    && t.src == 5 && t.idxh == ch.stream && 2 * t.idx + t.half == ch.channel
                    && (t.valid <==> lbLane && ch.stream < 8 && ch.channel < 8))
  {
  }

  /** A loopback cluster always reads a channel some AAF input carries. */
  lemma {:induction false} LoopbackChannelIsReceived(ss: seq<Stream>, j: nat, n: nat)
    requires Received(ss) != []
    ensures var ch := LoopbackChannel(Received(ss), j, n);
            ch.stream < |ss| && ss[ch.stream].kind == Aaf && ch.channel < ChannelsOf(ss[ch.stream])
  {
    var rx := Received(ss);
    var ch := LoopbackChannel(rx, j, n);
    assert ch in rx;
    ReceivedMembers(ss, ch);
  }

  /** Any window of as many clusters as there are received channels never reads one twice. */
  lemma {:induction false} WindowNeverRepeats(ss: seq<Stream>, j: nat, n: nat, m: nat)
    requires Received(ss) != [] && n < m < n + |Received(ss)|
    ensures LoopbackChannel(Received(ss), j, n) != LoopbackChannel(Received(ss), j, m)
  {
    var rx := Received(ss);
    ReceivedDistinct(ss);
    ModWindow(StartOf(rx, j) + n, StartOf(rx, j) + m, |rx|);
  }

  /** Such a window reads every received channel. */
  lemma {:induction false} WindowReadsEvery(ss: seq<Stream>, j: nat, from: nat, ch: RxChannel) returns (n: nat)
    requires ch in Received(ss)
    ensures from <= n < from + |Received(ss)| && LoopbackChannel(Received(ss), j, n) == ch
  {
    var rx := Received(ss);
    var d := Landing(StartOf(rx, j) + from, FirstAt(rx, ch), |rx|);
    n := from + d;
  }

  /** `_out_identity_offset`: the offset of the primary segment, 0 without one. */
  function IdentityOffset(p: PoolPort): nat {
    FirstOffset(p.pool, p.primaryRole)
  }

  function FirstOffset(pool: seq<Segment>, role: Option<Role>): nat {
    if pool == [] then 0
    else if Some(pool[0].role) == role then pool[0].offset
    else FirstOffset(pool[1..], role)
  }
}
