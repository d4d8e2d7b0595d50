/**
 The audio-map gate in terms of format fields and mapping rows alone: which bits of a format say
 how wide a stream is, which rows collide, and which rows are recorded as deviations.
 */
module MapLaws {
  import opened AemSpec
  import opened AudioMaps
  import opened Descriptors
  import opened Sequences
  import opened Wrappers

  // ----- the channel field of a format

  /** An AAF format, subtype 2, with this many channels per frame. */
  ghost predicate Carries(f: nat, channels: nat) {
    exists mid: nat, low: nat :: FieldsFit(mid, channels, low) && f == FormatWord(2, mid, channels, low)
  }

  /** The gate reads the channel field of an AAF format, and no width from any other. */
  lemma {:induction false} FmtChannelsOfFields(subtype: nat, mid: nat, channels: nat, low: nat)
    requires FieldsFit(mid, channels, low)
    ensures FmtChannels(FormatWord(subtype, mid, channels, low)) == if subtype == 2 then Some(channels) else None
  {
    FormatFields(subtype, mid, channels, low);
  }

  lemma {:induction false} FmtChannelsExactly(f: nat, channels: nat)
    ensures FmtChannels(f) == Some(channels) <==> Carries(f, channels)
  {
    if mid: nat, low: nat :| FieldsFit(mid, channels, low) && f == FormatWord(2, mid, channels, low) {
      FmtChannelsOfFields(2, mid, channels, low);
    }
    if FmtChannels(f) == Some(channels) {
      var mid, low := f / 0x1_0000_0000 % 0x100_0000, f % 0x40_0000;
      assert f / 0x1_0000_0000 == 2 * 0x100_0000 + mid;
      assert f / 0x40_0000 == f / 0x1_0000_0000 * 0x400 + channels;
      assert FieldsFit(mid, channels, low) && f == FormatWord(2, mid, channels, low);
    }
  }

  /** The talker map and the gate agree on an AAF stream's width. */
  lemma {:induction false} WidthsAgree(s: Stream)
    requires s.formats != [] && FmtChannels(s.formats[0]).Some?
    ensures FmtChannels(s.formats[0]) == Some(ChannelsOf(s))
  {
    var c := FmtChannels(s.formats[0]).value;
    FmtChannelsExactly(s.formats[0], c);
    var mid: nat, low: nat :| FieldsFit(mid, c, low) && s.formats[0] == FormatWord(2, mid, c, low);
    ChannelsOfFormat(s, 2, mid, c, low);
  }

  // ----- deviations

  ghost predicate SomeCarries(formats: seq<nat>) {
    exists f: nat, c: nat :: f in formats && Carries(f, c)
  }

  /** The row's stream has an audio format, and its channel reaches the width of every one. */
  ghost predicate PastEveryFormat(streams: seq<Stream>, row: MapRow) {
    && row.stream < |streams| && SomeCarries(streams[row.stream].formats)
    && forall f: nat, c: nat :: f in streams[row.stream].formats && Carries(f, c) ==> c <= row.streamChannel
  }

  lemma {:induction false} SomeCarriesExactly(formats: seq<nat>)
    ensures SomeCarries(formats) <==> exists f :: f in formats && FmtChannels(f).Some?
  {
    if f: nat, c: nat :| f in formats && Carries(f, c) {
      FmtChannelsExactly(f, c);
    }
    if f :| f in formats && FmtChannels(f).Some? {
      FmtChannelsExactly(f, FmtChannels(f).value);
    }
  }

  lemma {:induction false} PastWidestExactly(streams: seq<Stream>, row: MapRow)
    ensures PastWidest(streams, row) <==> PastEveryFormat(streams, row)
  {
    if row.stream < |streams| {
      var formats := streams[row.stream].formats;
      WidestIsTheMaximum(formats);
      SomeCarriesExactly(formats);
      forall f: nat, c: nat | f in formats ensures FmtChannels(f) == Some(c) <==> Carries(f, c) {
        FmtChannelsExactly(f, c);
      }
    }
  }

  /** Row r of static port k's own map. */
  ghost predicate IsRow(side: Side, maps: seq<seq<MapRow>>, k: nat, r: nat, m: Mapping) {
    && k < |side.ports| && !side.ports[k].dynamic
    && side.ports[k].baseMap < |maps| && r < |maps[side.ports[k].baseMap]|
    && m == Mapping(k, side.ports[k].baseMap, maps[side.ports[k].baseMap][r])
  }

  /** The mappings are the ports' rows, port by port, each in its place. */
  lemma {:induction false} MappingsAreTheRows(side: Side, maps: seq<seq<MapRow>>, n: nat, m: Mapping)
    requires n <= |side.ports|
    ensures m in AllMappings(side, maps, n) <==> exists k: nat, r: nat :: k < n && IsRow(side, maps, k, r, m)
  {
    if n > 0 {
      var before, own := AllMappings(side, maps, n - 1), PortMappings(side, maps, n - 1);
      MappingsAreTheRows(side, maps, n - 1, m);
      if m in own {
        var r :| 0 <= r < |own| && own[r] == m;
        assert IsRow(side, maps, n - 1, r, m);
      }
      if k: nat, r: nat :| k < n && IsRow(side, maps, k, r, m) {
        if k == n - 1 {
          assert own[r] == m;
        }
      }
    }
  }

  lemma {:induction false} DeviatingIsPast(streams: seq<Stream>, ms: seq<Mapping>, m: Mapping)
    ensures m in Deviating(streams, ms) <==> m in ms && PastWidest(streams, m.row)
  {
    if ms != [] {
      var n := |ms| - 1;
      assert ms == ms[..n] + [ms[n]];
      DeviatingIsPast(streams, ms[..n], m);
    }
  }

  /** DEVIATIONS lists exactly the static ports' rows whose channel no advertised format has. */
  lemma {:induction false} DeviationsExactly(side: Side, maps: seq<seq<MapRow>>, m: Mapping)
    ensures m in Deviating(side.streams, AllMappings(side, maps, |side.ports|)) <==>
            (exists k: nat, r: nat :: k < |side.ports| && IsRow(side, maps, k, r, m)) && PastEveryFormat(side.streams, m.row)
  {
    DeviatingIsPast(side.streams, AllMappings(side, maps, |side.ports|), m);
    MappingsAreTheRows(side, maps, |side.ports|, m);
    PastWidestExactly(side.streams, m.row);
  }

  /** Eight clusters on a stereo stream: the upper six mappings deviate. */
  lemma {:induction false} StereoTalkerDeviates(rows: seq<Mapping>)
    requires |rows| == 8 && forall c :: 0 <= c < 8 ==> rows[c] == Mapping(0, 0, MapRow(0, c, c, 0))
    ensures Deviating([Stream([], Aaf, [0x0205_0220_0080_6000], 0)], rows) == rows[2..]
  {
    var streams := [Stream([], Aaf, [0x0205_0220_0080_6000], 0)];
    assert streams[0].formats[..0] == [];
    assert Widest(streams[0].formats) == Some(2);
    StereoPrefix(streams, rows, 8);
    assert rows[..8] == rows;
  }

  lemma {:induction false} StereoPrefix(streams: seq<Stream>, rows: seq<Mapping>, n: nat)
    requires |streams| == 1 && Widest(streams[0].formats) == Some(2) && n <= |rows|
    requires forall c :: 0 <= c < |rows| ==> rows[c].row.stream == 0 && rows[c].row.streamChannel == c
    ensures Deviating(streams, rows[..n]) == if n <= 2 then [] else rows[2..n]
  {
    if n > 0 {
      StereoPrefix(streams, rows, n - 1);
      assert rows[..n][..n - 1] == rows[..n - 1];
      assert PastWidest(streams, rows[n - 1].row) <==> n > 2;
      assert n > 2 ==> rows[2..n] == rows[2..n - 1] + [rows[n - 1]];
    }
  }

  // ----- the duplicate rule

  ghost predicate SameCluster(a: MapRow, b: MapRow) {
    a.clusterOffset == b.clusterOffset && a.clusterChannel == b.clusterChannel
  }

  ghost predicate SameStreamChannel(a: MapRow, b: MapRow) {
    a.stream == b.stream && a.streamChannel == b.streamChannel
  }

  ghost predicate ClustersDiffer(ms: seq<Mapping>) {
    forall i, j :: 0 <= i < j < |ms| ==> !SameCluster(ms[i].row, ms[j].row)
  }

  ghost predicate ChannelsDiffer(ms: seq<Mapping>) {
    forall i, j :: 0 <= i < j < |ms| ==> !SameStreamChannel(ms[i].row, ms[j].row)
  }

  lemma {:induction false} KeysDiffer(ms: seq<Mapping>)
    ensures Distinct(ClusterKeys(ms)) <==> ClustersDiffer(ms)
    ensures Distinct(StreamKeys(ms)) <==> ChannelsDiffer(ms)
  {
    var clusters, channels := ClusterKeys(ms), StreamKeys(ms);
    forall i, j | 0 <= i < j < |ms|
      ensures clusters[i] == clusters[j] <==> SameCluster(ms[i].row, ms[j].row)
      ensures channels[i] == channels[j] <==> SameStreamChannel(ms[i].row, ms[j].row)
    {
    }
    if ClustersDiffer(ms) {
      forall i, j | 0 <= i < j < |clusters| ensures clusters[i] != clusters[j] {
        assert !SameCluster(ms[i].row, ms[j].row);
      }
    }
    if ChannelsDiffer(ms) {
      forall i, j | 0 <= i < j < |channels| ensures channels[i] != channels[j] {
        assert !SameStreamChannel(ms[i].row, ms[j].row);
      }
    }
  }

  /** Input ports: one row per cluster channel of a port. Outputs: one row per stream channel of them all. */
  ghost predicate NoCollision(side: Side, maps: seq<seq<MapRow>>) {
    match side.direction
    case Input =>
      forall k: nat, r: nat, q: nat, a: Mapping, b: Mapping :: IsRow(side, maps, k, r, a) && IsRow(side, maps, k, q, b) && r != q ==> !SameCluster(a.row, b.row)
    case Output =>
      forall k: nat, l: nat, r: nat, q: nat, a: Mapping, b: Mapping :: IsRow(side, maps, k, r, a) && IsRow(side, maps, l, q, b) && (k != l || r != q) ==>
        !SameStreamChannel(a.row, b.row)
  }

  /** Row r of port k sits behind the mappings of the ports before it. */
  function Place(side: Side, maps: seq<seq<MapRow>>, k: nat, r: nat): nat
    requires k <= |side.ports|
  {
    |AllMappings(side, maps, k)| + r
  }

  lemma {:induction false} RowHasItsPlace(side: Side, maps: seq<seq<MapRow>>, n: nat, k: nat, r: nat, m: Mapping)
    requires n <= |side.ports| && k < n && IsRow(side, maps, k, r, m)
    ensures Place(side, maps, k, r) < |AllMappings(side, maps, k + 1)| <= |AllMappings(side, maps, n)|
    ensures AllMappings(side, maps, n)[Place(side, maps, k, r)] == m
  {
    EarlierMappings(side, maps, k + 1, n);
    assert PortMappings(side, maps, k)[r] == m;
  }

  lemma {:induction false} PlaceHasItsRow(side: Side, maps: seq<seq<MapRow>>, n: nat, i: nat) returns (k: nat, r: nat)
    requires n <= |side.ports| && i < |AllMappings(side, maps, n)|
    ensures k < n && IsRow(side, maps, k, r, AllMappings(side, maps, n)[i]) && i == Place(side, maps, k, r)
  {
    var before := |AllMappings(side, maps, n - 1)|;
    if i < before {
      k, r := PlaceHasItsRow(side, maps, n - 1, i);
    } else {
      k, r := n - 1, i - before;
    }
  }

  lemma {:induction false} PlacesDiffer(side: Side, maps: seq<seq<MapRow>>, k: nat, r: nat, a: Mapping, l: nat, q: nat,
                                        b: Mapping)
    requires IsRow(side, maps, k, r, a) && IsRow(side, maps, l, q, b) && (k != l || r != q)
    ensures Place(side, maps, k, r) != Place(side, maps, l, q)
  {
    RowHasItsPlace(side, maps, |side.ports|, k, r, a);
    RowHasItsPlace(side, maps, |side.ports|, l, q, b);
    if k < l {
      EarlierMappings(side, maps, k + 1, l);
    } else if l < k {
      EarlierMappings(side, maps, l + 1, k);
    }
  }

  lemma {:induction false} InputsExactly(side: Side, maps: seq<seq<MapRow>>)
    requires side.direction == Input
    ensures Unduplicated(side, maps) <==> NoCollision(side, maps)
  {
    if NoCollision(side, maps) {
      forall k | 0 <= k < |side.ports| ensures Distinct(ClusterKeys(PortMappings(side, maps, k))) {
        var ms := PortMappings(side, maps, k);
        forall i, j | 0 <= i < j < |ms| ensures !SameCluster(ms[i].row, ms[j].row) {
          assert IsRow(side, maps, k, i, ms[i]) && IsRow(side, maps, k, j, ms[j]);
        }
        KeysDiffer(ms);
      }
    }
    if Unduplicated(side, maps) {
      forall k: nat, r: nat, q: nat, a: Mapping, b: Mapping | IsRow(side, maps, k, r, a) && IsRow(side, maps, k, q, b) && r != q ensures !SameCluster(a.row, b.row) {
        var ms := PortMappings(side, maps, k);
        KeysDiffer(ms);
        assert ms[r] == a && ms[q] == b;
        assert r < q ==> !SameCluster(ms[r].row, ms[q].row);
        assert q < r ==> !SameCluster(ms[q].row, ms[r].row);
      }
    }
  }

  lemma {:induction false} OutputsExactly(side: Side, maps: seq<seq<MapRow>>)
    requires side.direction == Output
    ensures Unduplicated(side, maps) <==> NoCollision(side, maps)
  {
    var n := |side.ports|;
    var ms := AllMappings(side, maps, n);
    KeysDiffer(ms);
    if NoCollision(side, maps) {
      forall i, j | 0 <= i < j < |ms| ensures !SameStreamChannel(ms[i].row, ms[j].row) {
        var k, r := PlaceHasItsRow(side, maps, n, i);
        var l, q := PlaceHasItsRow(side, maps, n, j);
      }
    }
    if Unduplicated(side, maps) {
      forall k: nat, l: nat, r: nat, q: nat, a: Mapping, b: Mapping | IsRow(side, maps, k, r, a) && IsRow(side, maps, l, q, b) && (k != l || r != q)
        ensures !SameStreamChannel(a.row, b.row)
      {
        PlacesDiffer(side, maps, k, r, a, l, q, b);
        RowHasItsPlace(side, maps, n, k, r, a);
        RowHasItsPlace(side, maps, n, l, q, b);
        var i, j := Place(side, maps, k, r), Place(side, maps, l, q);
        assert i < j ==> !SameStreamChannel(ms[i].row, ms[j].row);
        assert j < i ==> !SameStreamChannel(ms[j].row, ms[i].row);
      }
    }
  }

  // ----- the whole gate

  /** One map of at most 62 rows, each on a cluster of the port and a stream with an audio format. */
  ghost predicate PortFits(p: Port, streams: seq<Stream>, maps: seq<seq<MapRow>>) {
    p.dynamic ||
    (&& p.maps == 1 && p.baseMap < |maps| && |maps[p.baseMap]| <= 62
     && forall row :: row in maps[p.baseMap] ==> RowFits(p, streams, row))
  }

  ghost predicate RowFits(p: Port, streams: seq<Stream>, row: MapRow) {
    && row.clusterOffset < p.clusters && row.clusterChannel == 0
    && row.stream < |streams| && SomeCarries(streams[row.stream].formats)
  }

  lemma {:induction false} PortFitsExactly(side: Side, maps: seq<seq<MapRow>>, k: nat)
    requires k < |side.ports|
    ensures PortWithinBounds(side, maps, k) <==> PortFits(side.ports[k], side.streams, maps)
  {
    var p := side.ports[k];
    if p.baseMap < |maps| {
      forall row | row in maps[p.baseMap] && row.stream < |side.streams|
        ensures SomeCarries(side.streams[row.stream].formats) <==>
                exists f :: f in side.streams[row.stream].formats && FmtChannels(f).Some?
      {
        SomeCarriesExactly(side.streams[row.stream].formats);
      }
      assert PortFits(p, side.streams, maps) ==> forall row :: row in maps[p.baseMap] ==> p.dynamic || RowFits(p, side.streams, row);
    }
  }

  ghost predicate SideFits(side: Side, maps: seq<seq<MapRow>>) {
    && |side.ports| <= 32 && NoCollision(side, maps)
    && forall k :: 0 <= k < |side.ports| ==> PortFits(side.ports[k], side.streams, maps)
  }

  lemma {:induction false} SideFitsExactly(side: Side, maps: seq<seq<MapRow>>)
    ensures |side.ports| <= 32 && SideAcceptable(side, maps) <==> SideFits(side, maps)
  {
    forall k | 0 <= k < |side.ports| ensures PortWithinBounds(side, maps, k) <==> PortFits(side.ports[k], side.streams, maps) {
      PortFitsExactly(side, maps, k);
    }
    if side.direction == Input {
      InputsExactly(side, maps);
    } else {
      OutputsExactly(side, maps);
    }
  }

  /** The gate, as a condition on port numbers, mapping rows and format fields. */
  lemma {:induction false} MapsAcceptableExactly(spec: Spec)
    ensures MapsAcceptable(spec) <==>
            && SideFits(Side(Input, spec.portsIn, spec.streamInputs), spec.audioMaps)
            && SideFits(Side(Output, spec.portsOut, spec.streamOutputs), spec.audioMaps)
  {
    SideFitsExactly(InputSide(spec), spec.audioMaps);
    SideFitsExactly(OutputSide(spec), spec.audioMaps);
  }
}
