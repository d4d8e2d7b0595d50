/**
 The AUDIO_MAP bounds gate and the per-port serving tables (avdecc/aem_maps.py).

 The duplicate rule of clause 7.2.19 of IEEE 1722.1-2021 is asymmetric: an input map is unique on
 the cluster channel, port by port; output maps are unique on the stream channel, across the
 whole configuration.
 */
module AudioMaps {
  import opened AemSpec
  import opened Assemble
  import opened Descriptors
  import opened Octets
  import opened Sequences
  import opened TwoLevel
  import opened Wrappers

  const SMAP_MAX_PORTS: nat := 32
  const SMAP_MAX_ROWS: nat := 62
  const SMAP_CLUSTER_CHANNELS: nat := 1

  datatype Direction = Input | Output

  datatype Side = Side(direction: Direction, ports: seq<Port>, streams: seq<Stream>)

  /** Where a mapping sits: its port, the AUDIO_MAP that port serves, and the row. */
  datatype Mapping = Mapping(port: nat, baseMap: nat, row: MapRow) {
    function ClusterKey(): (nat, nat) { (row.clusterOffset, row.clusterChannel) }
    function StreamKey(): (nat, nat) { (row.stream, row.streamChannel) }
  }

  // ----- the bounds of one mapping

  /** channels_per_frame of an AAF stream_format; None for a format that carries no channels. */
  function FmtChannels(fmt: nat): Option<nat> {
    if fmt / 0x100_0000_0000_0000 != 2 then None else Some(fmt / 0x40_0000 % 0x400)
  }

  /** The widest channels_per_frame a format list advertises, None when it advertises no audio. */
  function Widest(formats: seq<nat>): Option<nat> {
    if formats == [] then None
    else
      var n := |formats| - 1;
      match (Widest(formats[..n]), FmtChannels(formats[n]))
      case (None, c) => c
      case (w, None) => w
      case (Some(w), Some(c)) => Some(if c > w then c else w)
  }

  lemma {:induction false} WidestIsTheMaximum(formats: seq<nat>)
    ensures Widest(formats) == None <==> forall f :: f in formats ==> FmtChannels(f) == None
    ensures Widest(formats).Some? ==>
              && (exists f :: f in formats && FmtChannels(f) == Widest(formats))
              && (forall f :: f in formats && FmtChannels(f).Some? ==> FmtChannels(f).value <= Widest(formats).value)
  {
    if formats != [] {
      var n := |formats| - 1;
      WidestIsTheMaximum(formats[..n]);
      assert formats == formats[..n] + [formats[n]];
      if Widest(formats[..n]).Some? && Widest(formats) == Widest(formats[..n]) {
        var f :| f in formats[..n] && FmtChannels(f) == Widest(formats[..n]);
        assert f in formats;
      }
    }
  }

  /** `_map_row_bounds`: an error, or whether the mapping deviates past the widest format. */
  function MapRowBounds(row: MapRow, port: Port, streams: seq<Stream>): Result<bool> {
    if row.clusterOffset >= port.clusters then Err
    else if row.clusterChannel >= SMAP_CLUSTER_CHANNELS then Err
    else if row.stream >= |streams| then Err
    else match Widest(streams[row.stream].formats)
      case None => Err
      case Some(w) => Ok(row.streamChannel >= w)
  }

  /** `_static_map_of` */
  function StaticMapOf(port: Port, maps: seq<seq<MapRow>>): Result<(nat, seq<MapRow>)> {
    if port.maps != 1 || port.baseMap >= |maps| || |maps[port.baseMap]| > SMAP_MAX_ROWS then Err
    else Ok((port.baseMap, maps[port.baseMap]))
  }

  // ----- what the gate is meant to accept

  /** The mappings port k serves, none when it is dynamic. */
  function PortMappings(side: Side, maps: seq<seq<MapRow>>, k: nat): seq<Mapping>
    requires k < |side.ports|
  {
    var p := side.ports[k];
    if p.dynamic || p.baseMap >= |maps| then []
    else Mappings(k, p.baseMap, maps[p.baseMap])
  }

  function Mappings(k: nat, bm: nat, rows: seq<MapRow>): seq<Mapping> {
    seq(|rows|, r requires 0 <= r < |rows| => Mapping(k, bm, rows[r]))
  }

  /** Every mapping of the first n ports, in order. */
  function AllMappings(side: Side, maps: seq<seq<MapRow>>, n: nat): seq<Mapping>
    requires n <= |side.ports|
  {
    if n == 0 then [] else AllMappings(side, maps, n - 1) + PortMappings(side, maps, n - 1)
  }

  function ClusterKeys(ms: seq<Mapping>): seq<(nat, nat)> {
    seq(|ms|, i requires 0 <= i < |ms| => ms[i].ClusterKey())
  }

  function StreamKeys(ms: seq<Mapping>): seq<(nat, nat)> {
    seq(|ms|, i requires 0 <= i < |ms| => ms[i].StreamKey())
  }

  /** The port-level and mapping-level bounds of one static port, each taken from a different descriptor. */
  ghost predicate PortWithinBounds(side: Side, maps: seq<seq<MapRow>>, k: nat)
    requires k < |side.ports|
  {
    var p := side.ports[k];
    p.dynamic ||
    (&& p.maps == 1
     && p.baseMap < |maps|
     && |maps[p.baseMap]| <= 62
     && (forall row :: row in maps[p.baseMap] ==>
           && row.clusterOffset < p.clusters
           && row.clusterChannel == 0
           && row.stream < |side.streams|
           && exists f :: f in side.streams[row.stream].formats && FmtChannels(f).Some?))
  }

  /** Within bounds, and its map has an address. */
  ghost predicate PortBounded(side: Side, maps: seq<seq<MapRow>>, dir: seq<Entry>, k: nat)
    requires k < |side.ports|
  {
    && PortWithinBounds(side, maps, k)
    && (side.ports[k].dynamic || BaseOf(dir, AUDIO_MAP, side.ports[k].baseMap).Some?)
  }

  /** The half of the duplicate rule that applies to this direction. */
  ghost predicate Unduplicated(side: Side, maps: seq<seq<MapRow>>) {
    match side.direction
    case Input => forall k :: 0 <= k < |side.ports| ==> Distinct(ClusterKeys(PortMappings(side, maps, k)))
    case Output => Distinct(StreamKeys(AllMappings(side, maps, |side.ports|)))
  }

  /** All bounds, and the half of the duplicate rule that applies to this direction. */
  ghost predicate Conforms(side: Side, maps: seq<seq<MapRow>>, dir: seq<Entry>) {
    && (forall k :: 0 <= k < |side.ports| ==> PortBounded(side, maps, dir, k))
    && Unduplicated(side, maps)
  }

  /** The mappings past the widest advertised format, in the order the gate meets them. */
  function Deviating(streams: seq<Stream>, ms: seq<Mapping>): seq<Mapping> {
    if ms == [] then []
    else
      var n := |ms| - 1;
      Deviating(streams, ms[..n]) + if PastWidest(streams, ms[n].row) then [ms[n]] else []
  }

  predicate PastWidest(streams: seq<Stream>, row: MapRow) {
    row.stream < |streams| && Widest(streams[row.stream].formats).Some?
    && row.streamChannel >= Widest(streams[row.stream].formats).value
  }

  lemma {:induction false} DeviatingConcat(streams: seq<Stream>, a: seq<Mapping>, b: seq<Mapping>)
    ensures Deviating(streams, a + b) == Deviating(streams, a) + Deviating(streams, b)
  {
    if b == [] {
      assert a + b == a;
    } else {
      var n := |b| - 1;
      assert (a + b)[..|a| + n] == a + b[..n];
      DeviatingConcat(streams, a, b[..n]);
    }
  }

  lemma {:induction false} NoneDeviates(streams: seq<Stream>, ms: seq<Mapping>, i: nat)
    requires Deviating(streams, ms) == [] && i < |ms|
    ensures !PastWidest(streams, ms[i].row)
  {
    if i < |ms| - 1 {
      NoneDeviates(streams, ms[..|ms| - 1], i);
    }
  }

  lemma {:induction false} EarlierMappings(side: Side, maps: seq<seq<MapRow>>, k: nat, n: nat)
    requires k <= n <= |side.ports|
    ensures AllMappings(side, maps, k) <= AllMappings(side, maps, n)
  {
    if k < n {
      EarlierMappings(side, maps, k, n - 1);
    }
  }

  lemma {:induction false} RowBounds(row: MapRow, port: Port, streams: seq<Stream>)
    ensures MapRowBounds(row, port, streams).Ok? <==>
            && row.clusterOffset < port.clusters && row.clusterChannel == 0 && row.stream < |streams|
            && exists f :: f in streams[row.stream].formats && FmtChannels(f).Some?
    ensures MapRowBounds(row, port, streams).Ok? ==> MapRowBounds(row, port, streams).value == PastWidest(streams, row)
  {
    if row.stream < |streams| {
      WidestIsTheMaximum(streams[row.stream].formats);
    }
  }

  function KeySet(keys: seq<(nat, nat)>): set<(nat, nat)> {
    set k | k in keys
  }

  // ----- the gate

  /** The caller's two containers: one port's cluster channels, and every output's stream channels. */
  class Ledger {
    var seen: set<(nat, nat)>
    var cfgStreamCh: map<(nat, nat), Mapping>

    constructor ()
      ensures seen == {} && cfgStreamCh == map[]
    {
      seen, cfgStreamCh := {}, map[];
    }

    /** `_map_duplicate_rule`, updating the container its direction is scoped to. */
    method Record(where: Mapping, direction: Direction) returns (ok: bool)
      modifies this
      ensures ok == match direction
                    case Input => where.ClusterKey() !in old(seen)
                    case Output => where.StreamKey() !in old(cfgStreamCh)
      ensures seen == if ok && direction == Input then old(seen) + {where.ClusterKey()} else old(seen)
      ensures cfgStreamCh == if ok && direction == Output then old(cfgStreamCh)[where.StreamKey() := where] else old(cfgStreamCh)
    {
      if direction == Input {
        if where.ClusterKey() in seen {
          return false;
        }
        seen := seen + {where.ClusterKey()};
      } else {
        if where.StreamKey() in cfgStreamCh {
          return false;
        }
        cfgStreamCh := cfgStreamCh[where.StreamKey() := where];
      }
      return true;
    }
  }

  /** What may be added to the ledger: no repeat among the mappings, nor of what it already holds. */
  ghost predicate Unrepeated(direction: Direction, held: set<(nat, nat)>, ms: seq<Mapping>) {
    match direction
    case Input => Distinct(ClusterKeys(ms))
    case Output => Distinct(StreamKeys(ms)) && forall k :: k in StreamKeys(ms) ==> k !in held
  }

  ghost predicate RowsBounded(side: Side, port: Port, ms: seq<Mapping>) {
    forall i :: 0 <= i < |ms| ==> MapRowBounds(ms[i].row, port, side.streams).Ok?
  }

  lemma {:induction false} KeysGrow(ms: seq<Mapping>, r: nat)
    requires r < |ms|
    ensures ClusterKeys(ms[..r + 1]) == ClusterKeys(ms[..r]) + [ms[r].ClusterKey()]
    ensures StreamKeys(ms[..r + 1]) == StreamKeys(ms[..r]) + [ms[r].StreamKey()]
    ensures ms[..r + 1][..r] == ms[..r]
  {
  }

  /** A repeat already among the first mappings is a repeat among them all. */
  lemma {:induction false} RepeatStays(direction: Direction, held: set<(nat, nat)>, ms: seq<Mapping>, r: nat)
    requires r < |ms|
    ensures Unrepeated(direction, held, ms) ==>
              match direction
              case Input => ms[r].ClusterKey() !in ClusterKeys(ms[..r])
              case Output => ms[r].StreamKey() !in StreamKeys(ms[..r]) && ms[r].StreamKey() !in held
  {
    assert ClusterKeys(ms)[r] == ms[r].ClusterKey() && StreamKeys(ms)[r] == ms[r].StreamKey();
    assert forall i :: 0 <= i < r ==>
        ClusterKeys(ms)[i] == ClusterKeys(ms[..r])[i] && StreamKeys(ms)[i] == StreamKeys(ms[..r])[i];
  }

  /** One static port's rows against every bound, recording each in the ledger. */
  method CheckRows(side: Side, port: Port, ms: seq<Mapping>, ledger: Ledger)
    returns (ok: bool, deviations: seq<Mapping>)
    requires ledger.seen == {}
    modifies ledger
    ensures ok <==> RowsBounded(side, port, ms) && Unrepeated(side.direction, old(ledger.cfgStreamCh).Keys, ms)
    ensures ok ==> deviations == Deviating(side.streams, ms)
    ensures ok ==> ledger.cfgStreamCh.Keys ==
                   old(ledger.cfgStreamCh).Keys + if side.direction == Output then KeySet(StreamKeys(ms)) else {}
  {
    deviations := [];
    ghost var held := ledger.cfgStreamCh.Keys;
    for r := 0 to |ms|
      invariant RowsBounded(side, port, ms[..r]) && Unrepeated(side.direction, held, ms[..r])
      invariant deviations == Deviating(side.streams, ms[..r])
      invariant ledger.seen == if side.direction == Input then KeySet(ClusterKeys(ms[..r])) else {}
      invariant ledger.cfgStreamCh.Keys == held + if side.direction == Output then KeySet(StreamKeys(ms[..r])) else {}
    {
      KeysGrow(ms, r);
      RepeatStays(side.direction, held, ms, r);
      RowBounds(ms[r].row, port, side.streams);
      var deviation := MapRowBounds(ms[r].row, port, side.streams);
      if deviation.Err? {
        return false, [];
      }
      if deviation.value {
        deviations := deviations + [ms[r]];
      }
      var recorded := ledger.Record(ms[r], side.direction);
      if !recorded {
        return false, [];
      }
    }
    assert ms[..|ms|] == ms;
    return true, deviations;
  }

  datatype Tables = Tables(addr: seq<nat>, rows: seq<nat>, moff: seq<nat>, deviations: seq<Mapping>)

  /** What a port's table entry says: zeros when dynamic, else its own map's address, size and offset. */
  ghost predicate IsEntryOf(addr: nat, rows: nat, moff: nat, side: Side, maps: seq<seq<MapRow>>, dir: seq<Entry>,
                            k: nat)
    requires k < |side.ports|
  {
    var p := side.ports[k];
    if p.dynamic then addr == 0 && rows == 0 && moff == 0
    else p.baseMap < |maps| && BaseOf(dir, AUDIO_MAP, p.baseMap) == Some(addr) && rows == |maps[p.baseMap]| && moff == 8
  }

  ghost predicate Serves(addr: seq<nat>, rows: seq<nat>, moff: seq<nat>, side: Side, maps: seq<seq<MapRow>>,
                         dir: seq<Entry>, k: nat)
    requires k < |side.ports|
  {
    k < |addr| && k < |rows| && k < |moff| && IsEntryOf(addr[k], rows[k], moff[k], side, maps, dir, k)
  }

  lemma {:induction false} MapHeaderOffset(index: nat, rows: seq<MapRow>)
    ensures |AudioMapBytes(index, rows)| >= 8 && U16(AudioMapBytes(index, rows), 4) == 8
  {
    assert AudioMapBytes(index, rows)[4..6] == Be16(8);
    FieldIs16(AudioMapBytes(index, rows), 4, Be16(8));
  }

  /** A static port is bounded exactly when its map can be had, its rows pass, and its map has an address. */
  lemma {:induction false} PortSteps(side: Side, maps: seq<seq<MapRow>>, dir: seq<Entry>, k: nat)
    requires k < |side.ports| && !side.ports[k].dynamic
    ensures PortBounded(side, maps, dir, k) <==>
            && StaticMapOf(side.ports[k], maps).Ok?
            && RowsBounded(side, side.ports[k], PortMappings(side, maps, k))
            && BaseOf(dir, AUDIO_MAP, side.ports[k].baseMap).Some?
  {
    var p := side.ports[k];
    if StaticMapOf(p, maps).Ok? {
      var rows, ms := maps[p.baseMap], PortMappings(side, maps, k);
      forall r | 0 <= r < |rows| ensures ms[r].row == rows[r] && rows[r] in rows {
        RowBounds(rows[r], p, side.streams);
      }
      forall r | 0 <= r < |rows|
        ensures MapRowBounds(rows[r], p, side.streams).Ok? <==>
                && rows[r].clusterOffset < p.clusters && rows[r].clusterChannel == 0 && rows[r].stream < |side.streams|
                && exists f :: f in side.streams[rows[r].stream].formats && FmtChannels(f).Some? {
        RowBounds(rows[r], p, side.streams);
      }
    }
  }

  ghost predicate DistinctSoFar(side: Side, maps: seq<seq<MapRow>>, n: nat)
    requires n <= |side.ports|
  {
    match side.direction
    case Input => forall k :: 0 <= k < n ==> Distinct(ClusterKeys(PortMappings(side, maps, k)))
    case Output => Distinct(StreamKeys(AllMappings(side, maps, n)))
  }

  /** Adding a port keeps the direction's rule exactly when its mappings are unrepeated. */
  lemma {:induction false} DistinctStep(side: Side, maps: seq<seq<MapRow>>, n: nat)
    requires n < |side.ports| && DistinctSoFar(side, maps, n)
    ensures DistinctSoFar(side, maps, n + 1) <==>
            Unrepeated(side.direction, KeySet(StreamKeys(AllMappings(side, maps, n))), PortMappings(side, maps, n))
  {
    if side.direction == Output {
      var before, here := StreamKeys(AllMappings(side, maps, n)), StreamKeys(PortMappings(side, maps, n));
      var all := StreamKeys(AllMappings(side, maps, n + 1));
      assert all == before + here;
      DistinctParts(before, here);
    }
  }

  lemma {:induction false} DistinctEarlier(side: Side, maps: seq<seq<MapRow>>, n: nat)
    requires n <= |side.ports| && DistinctSoFar(side, maps, |side.ports|)
    ensures DistinctSoFar(side, maps, n)
  {
    if side.direction == Output {
      EarlierMappings(side, maps, n, |side.ports|);
      var some, all := AllMappings(side, maps, n), AllMappings(side, maps, |side.ports|);
      assert forall i :: 0 <= i < |some| ==> StreamKeys(some)[i] == StreamKeys(all)[i];
    }
  }

  /** One port's entry in each of the four lists. */
  datatype Served = Served(addr: nat, rows: nat, moff: nat, deviations: seq<Mapping>)

  ghost predicate PortServed(s: Served, side: Side, maps: seq<seq<MapRow>>, dir: seq<Entry>, k: nat)
    requires k < |side.ports|
  {
    && s.deviations == Deviating(side.streams, PortMappings(side, maps, k))
    && IsEntryOf(s.addr, s.rows, s.moff, side, maps, dir, k)
  }

  /** One pass of the loop over ports. */
  method ServePort(side: Side, maps: seq<seq<MapRow>>, dir: seq<Entry>, k: nat, ledger: Ledger)
    returns (res: Result<Served>)
    requires k < |side.ports|
    modifies ledger
    ensures res.Ok? <==> PortBounded(side, maps, dir, k)
                         && Unrepeated(side.direction, old(ledger.cfgStreamCh).Keys, PortMappings(side, maps, k))
    ensures res.Ok? ==> PortServed(res.value, side, maps, dir, k)
    ensures res.Ok? ==> ledger.cfgStreamCh.Keys ==
                        old(ledger.cfgStreamCh).Keys
                        + if side.direction == Output then KeySet(StreamKeys(PortMappings(side, maps, k))) else {}
  {
    var p := side.ports[k];
    if p.dynamic {
      return Ok(Served(0, 0, 0, []));
    }
    PortSteps(side, maps, dir, k);
    var served := StaticMapOf(p, maps);
    if served.Err? {
      return Err;
    }
    var (bm, rows) := served.value;
    ledger.seen := {};
    var ok, deviations := CheckRows(side, p, Mappings(k, bm, rows), ledger);
    if !ok {
      return Err;
    }
    var base := BaseOf(dir, AUDIO_MAP, bm);
    if base.None? {
      return Err;
    }
    var img := DAudioMap(bm, rows);
    MapHeaderOffset(bm, rows);
    return Ok(Served(base.value, |rows|, U16(img, 4), deviations));
  }

  /** The tables after the first k ports, all of which passed. */
  ghost predicate GateSoFar(t: Tables, side: Side, maps: seq<seq<MapRow>>, dir: seq<Entry>, k: nat)
    requires k <= |side.ports|
  {
    && |t.addr| == |t.rows| == |t.moff| == k
    && (forall j :: 0 <= j < k ==> PortBounded(side, maps, dir, j))
    && ServesAll(t, side, maps, dir, k)
    && DistinctSoFar(side, maps, k)
    && t.deviations == Deviating(side.streams, AllMappings(side, maps, k))
  }

  ghost predicate ServesAll(t: Tables, side: Side, maps: seq<seq<MapRow>>, dir: seq<Entry>, n: nat)
    requires n <= |side.ports|
  {
    forall k :: 0 <= k < n ==> Serves(t.addr, t.rows, t.moff, side, maps, dir, k)
  }

  function Append(t: Tables, s: Served): Tables {
    Tables(t.addr + [s.addr], t.rows + [s.rows], t.moff + [s.moff], t.deviations + s.deviations)
  }

  lemma {:induction false} ServesStep(t: Tables, s: Served, side: Side, maps: seq<seq<MapRow>>, dir: seq<Entry>, k: nat)
    requires k < |side.ports| && |t.addr| == |t.rows| == |t.moff| == k
    requires ServesAll(t, side, maps, dir, k) && IsEntryOf(s.addr, s.rows, s.moff, side, maps, dir, k)
    ensures ServesAll(Append(t, s), side, maps, dir, k + 1)
  {
    forall j | 0 <= j <= k ensures Serves(Append(t, s).addr, Append(t, s).rows, Append(t, s).moff, side, maps, dir, j) {
      if j < k {
        assert Serves(t.addr, t.rows, t.moff, side, maps, dir, j);
      }
    }
  }

  lemma {:induction false} GateStep(t: Tables, s: Served, side: Side, maps: seq<seq<MapRow>>, dir: seq<Entry>, k: nat)
    requires k < |side.ports| && GateSoFar(t, side, maps, dir, k)
    requires PortBounded(side, maps, dir, k) && PortServed(s, side, maps, dir, k)
    requires Unrepeated(side.direction, KeySet(StreamKeys(AllMappings(side, maps, k))), PortMappings(side, maps, k))
    ensures GateSoFar(Append(t, s), side, maps, dir, k + 1)
  {
    DistinctStep(side, maps, k);
    DeviatingConcat(side.streams, AllMappings(side, maps, k), PortMappings(side, maps, k));
    ServesStep(t, s, side, maps, dir, k);
  }

  lemma {:induction false} HeldKeysGrow(side: Side, maps: seq<seq<MapRow>>, k: nat)
    requires k < |side.ports|
    ensures KeySet(StreamKeys(AllMappings(side, maps, k + 1))) ==
            KeySet(StreamKeys(AllMappings(side, maps, k))) + KeySet(StreamKeys(PortMappings(side, maps, k)))
  {
    assert StreamKeys(AllMappings(side, maps, k + 1)) ==
           StreamKeys(AllMappings(side, maps, k)) + StreamKeys(PortMappings(side, maps, k));
  }

  /** A port that fails a bound or repeats a key breaks conformance, whatever follows. */
  lemma {:induction false} RefusalIsFinal(side: Side, maps: seq<seq<MapRow>>, dir: seq<Entry>, k: nat)
    requires k < |side.ports| && DistinctSoFar(side, maps, k)
    requires !PortBounded(side, maps, dir, k) ||
             !Unrepeated(side.direction, KeySet(StreamKeys(AllMappings(side, maps, k))), PortMappings(side, maps, k))
    ensures !Conforms(side, maps, dir)
  {
    if Conforms(side, maps, dir) {
      DistinctEarlier(side, maps, k + 1);
      DistinctStep(side, maps, k);
    }
  }

  /** The gate accepts exactly the conforming sides, and tabulates each port's own map. */
  method DirectionTables(side: Side, maps: seq<seq<MapRow>>, dir: seq<Entry>) returns (res: Result<Tables>)
    ensures res.Ok? <==> Conforms(side, maps, dir)
    ensures res.Ok? ==> |res.value.addr| == |res.value.rows| == |res.value.moff| == |side.ports|
    ensures res.Ok? ==> ServesAll(res.value, side, maps, dir, |side.ports|)
    ensures res.Ok? ==> res.value.deviations == Deviating(side.streams, AllMappings(side, maps, |side.ports|))
  {
    var t := Tables([], [], [], []);
    var ledger := new Ledger();
    for k := 0 to |side.ports|
      invariant GateSoFar(t, side, maps, dir, k)
      invariant ledger.cfgStreamCh.Keys ==
                if side.direction == Output then KeySet(StreamKeys(AllMappings(side, maps, k))) else {}
      invariant fresh(ledger)
    {
      HeldKeysGrow(side, maps, k);
      var served := ServePort(side, maps, dir, k, ledger);
      if served.Err? {
        RefusalIsFinal(side, maps, dir, k);
        return Err;
      }
      GateStep(t, served.value, side, maps, dir, k);
      t := Append(t, served.value);
    }
    return Ok(t);
  }

  // ----- consequences of acceptance

  /** The cluster channels a port has: its clusters carry one channel each. */
  function ClusterPool(n: nat): (pool: set<(nat, nat)>)
    ensures |pool| == n && forall k :: k in pool <==> k.0 < n && k.1 == 0
  {
    if n == 0 then {} else ClusterPool(n - 1) + {(n - 1, 0)}
  }

  /** The stream channels the advertised formats offer at their widest. */
  function ChannelPool(streams: seq<Stream>): (pool: set<(nat, nat)>)
    ensures |pool| == Sum(Widths(streams))
    ensures forall k :: k in pool <==> k.0 < |streams| && k.1 < WidthOf(streams[k.0])
  {
    if streams == [] then {}
    else
      var n := |streams| - 1;
      var rest, last := ChannelPool(streams[..n]), StreamPool(n, WidthOf(streams[n]));
      assert Widths(streams)[..n] == Widths(streams[..n]);
      assert rest !! last by {
        assert forall k :: k in rest ==> k.0 < n;
      }
      assert |rest + last| == |rest| + |last|;
      rest + last
  }

  function StreamPool(stream: nat, width: nat): (pool: set<(nat, nat)>)
    ensures |pool| == width && forall k :: k in pool <==> k.0 == stream && k.1 < width
  {
    if width == 0 then {} else StreamPool(stream, width - 1) + {(stream, width - 1)}
  }

  function WidthOf(s: Stream): nat {
    match Widest(s.formats) case None => 0 case Some(w) => w
  }

  function Widths(streams: seq<Stream>): seq<nat> {
    seq(|streams|, i requires 0 <= i < |streams| => WidthOf(streams[i]))
  }

  /** Pigeonhole, inputs: an accepted input map has no more mappings than its port has clusters. */
  lemma {:induction false} InputMapFitsItsPort(side: Side, maps: seq<seq<MapRow>>, dir: seq<Entry>, k: nat)
    requires side.direction == Input && Conforms(side, maps, dir)
    requires k < |side.ports| && !side.ports[k].dynamic
    ensures side.ports[k].baseMap < |maps| && |maps[side.ports[k].baseMap]| <= side.ports[k].clusters
  {
    var p, keys := side.ports[k], ClusterKeys(PortMappings(side, maps, k));
    assert PortBounded(side, maps, dir, k);
    var rows := maps[p.baseMap];
    forall key | key in keys ensures key in ClusterPool(p.clusters) {
      var i :| 0 <= i < |keys| && keys[i] == key;
      assert rows[i] in rows;
    }
    Pigeonhole(keys, ClusterPool(p.clusters));
  }

  lemma {:induction false} MappingOfAPort(side: Side, maps: seq<seq<MapRow>>, n: nat, i: nat) returns (k: nat, r: nat)
    requires n <= |side.ports| && i < |AllMappings(side, maps, n)|
    ensures k < n && !side.ports[k].dynamic && side.ports[k].baseMap < |maps|
    ensures r < |maps[side.ports[k].baseMap]| && AllMappings(side, maps, n)[i].row == maps[side.ports[k].baseMap][r]
  {
    var before := |AllMappings(side, maps, n - 1)|;
    if i < before {
      k, r := MappingOfAPort(side, maps, n - 1, i);
    } else {
      k, r := n - 1, i - before;
    }
  }

  /** The rows table counts the mappings. */
  lemma {:induction false} RowsCountMappings(t: Tables, side: Side, maps: seq<seq<MapRow>>, dir: seq<Entry>, n: nat)
    requires n <= |side.ports| && |t.rows| == |side.ports|
    requires ServesAll(t, side, maps, dir, |side.ports|)
    ensures Sum(t.rows[..n]) == |AllMappings(side, maps, n)|
  {
    if n > 0 {
      RowsCountMappings(t, side, maps, dir, n - 1);
      assert t.rows[..n][..n - 1] == t.rows[..n - 1];
      assert Serves(t.addr, t.rows, t.moff, side, maps, dir, n - 1);
    }
  }

  /**
   Pigeonhole, outputs: without deviations, the static output maps together have no more mappings
   than the output streams advertise channels at their widest.
   */
  lemma {:induction false} OutputMapsFitTheStreams(t: Tables, side: Side, maps: seq<seq<MapRow>>, dir: seq<Entry>)
    requires side.direction == Output && Conforms(side, maps, dir) && |t.rows| == |side.ports|
    requires ServesAll(t, side, maps, dir, |side.ports|)
    requires Deviating(side.streams, AllMappings(side, maps, |side.ports|)) == []
    ensures Sum(t.rows) <= Sum(Widths(side.streams))
  {
    var n := |side.ports|;
    var ms := AllMappings(side, maps, n);
    var keys := StreamKeys(ms);
    RowsCountMappings(t, side, maps, dir, n);
    assert t.rows[..n] == t.rows;
    forall key | key in keys ensures key in ChannelPool(side.streams) {
      var i :| 0 <= i < |keys| && keys[i] == key;
      var k, r := MappingOfAPort(side, maps, n, i);
      assert PortBounded(side, maps, dir, k);
      var row := maps[side.ports[k].baseMap][r];
      assert row in maps[side.ports[k].baseMap];
      NoneDeviates(side.streams, ms, i);
      WidestIsTheMaximum(side.streams[row.stream].formats);
    }
    Pigeonhole(keys, ChannelPool(side.streams));
  }

  // ----- both directions together

  datatype SMap = SMap(inN: nat, outN: nat, inAddr: seq<nat>, inRows: seq<nat>, inMoff: seq<nat>,
                       outAddr: seq<nat>, outRows: seq<nat>, outMoff: seq<nat>,
                       inDeviations: seq<Mapping>, outDeviations: seq<Mapping>)

  function InputSide(spec: Spec): Side {
    Side(Input, spec.portsIn, spec.streamInputs)
  }

  function OutputSide(spec: Spec): Side {
    Side(Output, spec.portsOut, spec.streamOutputs)
  }

  /** `xs or [0]` */
  function OrZero(xs: seq<nat>): seq<nat> {
    if xs == [] then [0] else xs
  }

  /** One entry per port, or a single zero where there is no port. */
  ghost predicate Padded(addr: seq<nat>, rows: seq<nat>, moff: seq<nat>, ports: nat) {
    if ports == 0 then addr == rows == moff == [0] else |addr| == |rows| == |moff| == ports
  }

  ghost predicate MapsConform(spec: Spec, dir: seq<Entry>) {
    && |spec.portsIn| <= 32 && |spec.portsOut| <= 32
    && Conforms(InputSide(spec), spec.audioMaps, dir) && Conforms(OutputSide(spec), spec.audioMaps, dir)
  }

  /** The gate as a condition on the specification alone. */
  ghost predicate SideAcceptable(side: Side, maps: seq<seq<MapRow>>) {
    && (forall k :: 0 <= k < |side.ports| ==> PortWithinBounds(side, maps, k))
    && Unduplicated(side, maps)
  }

  ghost predicate MapsAcceptable(spec: Spec) {
    && |spec.portsIn| <= 32 && |spec.portsOut| <= 32
    && SideAcceptable(InputSide(spec), spec.audioMaps) && SideAcceptable(OutputSide(spec), spec.audioMaps)
  }

  lemma {:induction false} SideNeedsNoMore(side: Side, maps: seq<seq<MapRow>>, dir: seq<Entry>)
    requires forall bm :: 0 <= bm < |maps| ==> BaseOf(dir, AUDIO_MAP, bm).Some?
    ensures Conforms(side, maps, dir) <==> SideAcceptable(side, maps)
  {
    forall k | 0 <= k < |side.ports| ensures PortBounded(side, maps, dir, k) <==> PortWithinBounds(side, maps, k) {
    }
  }

  /** Where every map has its address, the directory adds no condition. */
  lemma {:induction false} MapsNeedNoMore(spec: Spec, dir: seq<Entry>)
    requires forall bm :: 0 <= bm < |spec.audioMaps| ==> BaseOf(dir, AUDIO_MAP, bm).Some?
    ensures MapsConform(spec, dir) <==> MapsAcceptable(spec)
  {
    SideNeedsNoMore(InputSide(spec), spec.audioMaps, dir);
    SideNeedsNoMore(OutputSide(spec), spec.audioMaps, dir);
  }

  method StaticMapTables(spec: Spec, dir: seq<Entry>) returns (res: Result<SMap>)
    ensures res.Ok? <==> MapsConform(spec, dir)
    ensures res.Ok? ==> res.value.inN == |spec.portsIn| && res.value.outN == |spec.portsOut|
    ensures res.Ok? ==> Padded(res.value.inAddr, res.value.inRows, res.value.inMoff, |spec.portsIn|)
    ensures res.Ok? ==> Padded(res.value.outAddr, res.value.outRows, res.value.outMoff, |spec.portsOut|)
    ensures res.Ok? ==> forall k :: 0 <= k < |spec.portsIn| ==>
              Serves(res.value.inAddr, res.value.inRows, res.value.inMoff, InputSide(spec), spec.audioMaps, dir, k)
    ensures res.Ok? ==> forall k :: 0 <= k < |spec.portsOut| ==>
              Serves(res.value.outAddr, res.value.outRows, res.value.outMoff, OutputSide(spec), spec.audioMaps, dir, k)
    ensures res.Ok? ==>
              && res.value.inDeviations ==
                 Deviating(spec.streamInputs, AllMappings(InputSide(spec), spec.audioMaps, |spec.portsIn|))
              && res.value.outDeviations ==
                 Deviating(spec.streamOutputs, AllMappings(OutputSide(spec), spec.audioMaps, |spec.portsOut|))
  {
    if |spec.portsIn| > SMAP_MAX_PORTS || |spec.portsOut| > SMAP_MAX_PORTS {
      return Err;
    }
    var ins := DirectionTables(InputSide(spec), spec.audioMaps, dir);
    if ins.Err? {
      return Err;
    }
    var outs := DirectionTables(OutputSide(spec), spec.audioMaps, dir);
    if outs.Err? {
      return Err;
    }
    var i, o := ins.value, outs.value;
    assert forall k :: 0 <= k < |spec.portsIn| ==> Serves(i.addr, i.rows, i.moff, InputSide(spec), spec.audioMaps, dir, k);
    assert forall k :: 0 <= k < |spec.portsOut| ==> Serves(o.addr, o.rows, o.moff, OutputSide(spec), spec.audioMaps, dir, k);
    return Ok(SMap(|i.addr|, |o.addr|, OrZero(i.addr), OrZero(i.rows), OrZero(i.moff),
                   OrZero(o.addr), OrZero(o.rows), OrZero(o.moff), i.deviations, o.deviations));
  }
}
