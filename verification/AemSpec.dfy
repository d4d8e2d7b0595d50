/** The declarative specification a model is assembled from (avdecc/aem_specs.py). */
module AemSpec {
  import opened Descriptors
  import opened Octets
  import opened Wrappers

  datatype Kind = Aaf | Crf

  datatype Stream = Stream(name: Bytes, kind: Kind, formats: seq<nat>, buffer: nat)

  /** channels_per_frame of a stream's reset format. */
  function ChannelsOf(s: Stream): nat {
    if s.formats == [] then 0 else s.formats[0] / 0x40_0000 % 0x400
  }

  /** A stream format by its fields: subtype in the top octet, channels_per_frame in ten bits above bit 22. */
  function FormatWord(subtype: nat, mid: nat, channels: nat, low: nat): nat {
    subtype * 0x100_0000_0000_0000 + mid * 0x1_0000_0000 + channels * 0x40_0000 + low
  }

  /** The fields have their widths; the subtype may be anything. */
  ghost predicate FieldsFit(mid: nat, channels: nat, low: nat) {
    mid < 0x100_0000 && channels < 1024 && low < 0x40_0000
  }

  lemma {:induction false} FormatFields(subtype: nat, mid: nat, channels: nat, low: nat)
    requires FieldsFit(mid, channels, low)
    ensures FormatWord(subtype, mid, channels, low) / 0x40_0000 % 1024 == channels
    ensures FormatWord(subtype, mid, channels, low) / 0x100_0000_0000_0000 == subtype
  {
    var f := FormatWord(subtype, mid, channels, low);
    assert f == (subtype * 0x4_0000_0000 + mid * 0x400 + channels) * 0x40_0000 + low;
    assert f / 0x40_0000 == (subtype * 0x100_0000 + mid) * 0x400 + channels;
    assert f == subtype * 0x100_0000_0000_0000 + (mid * 0x1_0000_0000 + channels * 0x40_0000 + low);
  }

  /** A stream is as wide as the channel field of its reset format. */
  lemma {:induction false} ChannelsOfFormat(s: Stream, subtype: nat, mid: nat, channels: nat, low: nat)
    requires FieldsFit(mid, channels, low)
    requires s.formats != [] && s.formats[0] == FormatWord(subtype, mid, channels, low)
    ensures ChannelsOf(s) == channels
  {
    FormatFields(subtype, mid, channels, low);
  }

  datatype ClockSource = ClockSource(name: Bytes, csType: nat, locType: nat, locIndex: nat)

  /** One capture-crossbar source template. */
  datatype Template = Template(src: nat, idxh: nat, idx: nat, half: nat, valid: bool)

  datatype Port = Port(
    clusters: nat,
    baseCluster: nat,
    maps: nat,
    baseMap: nat,
    dynamic: bool,
    streamIndex: Option<nat>,
    clusterSources: Option<seq<Template>>,
    identityOffset: nat,
    mapPage: Option<nat>)

  /** The singleton object names, defaults already merged in. */
  datatype Names = Names(configuration: Bytes, audioUnit: Bytes, avbInterface: Bytes,
                         clockDomain: Bytes, controlIdentify: Bytes)

  datatype Spec = Spec(
    entity: EntityText,
    names: Names,
    locale: Bytes,
    gptp: Gptp,
    rates: seq<nat>,
    currentRate: nat,
    ratesString: Bytes,
    streamInputs: seq<Stream>,
    streamOutputs: seq<Stream>,
    clockSources: seq<ClockSource>,
    portsIn: seq<Port>,
    portsOut: seq<Port>,
    clusterNamesIn: seq<Bytes>,
    clusterNamesOut: seq<Bytes>,
    audioMaps: seq<seq<MapRow>>)

  /** `sum(p["clusters"] for p in ports)` */
  function Clusters(ports: seq<Port>): nat {
    if ports == [] then 0 else Clusters(ports[..|ports| - 1]) + ports[|ports| - 1].clusters
  }

  lemma {:induction false} PortWithinClusters(ports: seq<Port>, k: nat)
    requires k < |ports|
    ensures ports[k].clusters <= Clusters(ports)
  {
    if k < |ports| - 1 {
      PortWithinClusters(ports[..|ports| - 1], k);
    }
  }
}
