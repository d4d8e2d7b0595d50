/**
 Which specifications `build_model` accepts (avdecc/aem_assemble.py), spelled out over the numbers,
 lists and format fields of the specification.
 */
module Buildability {
  import opened AemSpec
  import opened Assemble
  import opened AudioMaps
  import opened BuildModel
  import opened Layouts
  import opened MapLaws
  import opened TalkerMap
  import opened Wrappers

  /** Every list of names is absent or names each cluster. */
  ghost predicate NamesFit(spec: Spec) {
    && (spec.clusterNamesIn == [] || |spec.clusterNamesIn| == Clusters(spec.portsIn))
    && (spec.clusterNamesOut == [] || |spec.clusterNamesOut| == Clusters(spec.portsOut))
  }

  lemma {:induction false} NamesFitExactly(spec: Spec)
    ensures ClustersNamed(spec) <==> NamesFit(spec)
  {
  }

  ghost predicate NumbersFit(spec: Spec) {
    && spec.currentRate <= 4294967295 && (forall r :: r in spec.rates ==> r <= 4294967295)
    && (forall s :: s in spec.streamInputs ==> s.formats != [] && s.buffer <= 4294967295)
    && (forall s :: s in spec.streamOutputs ==> s.formats != [])
  }

  lemma {:induction false} NumbersFitExactly(spec: Spec)
    ensures Packable(spec) <==> NumbersFit(spec)
  {
    WordsFit(spec.currentRate);
    forall r | r in spec.rates ensures IsWord(r) {
      WordsFit(r);
    }
    forall s | s in spec.streamInputs ensures IsWord(s.buffer) {
      WordsFit(s.buffer);
    }
  }

  /** The packer's test of a 32-bit number is the literal one. */
  ghost predicate IsWord(v: nat) {
    Octets.IsU32(v) <==> v <= 4294967295
  }

  /** Output port j states one template per cluster, or none when static, and a stream there is. */
  ghost predicate TalkerPortFits(spec: Spec, j: nat)
    requires j < |spec.portsOut|
  {
    var p := spec.portsOut[j];
    && (p.clusterSources.Some? ==> |p.clusterSources.value| == p.clusters)
    && (p.clusterSources.None? ==> !p.dynamic)
    && (p.streamIndex.Some? ==> p.streamIndex.value < |spec.streamOutputs|)
    && (p.streamIndex.None? ==> j < |spec.streamOutputs|)
  }

  /** A dynamic output port needs a dynamic input port, formats on every output, and fitting ports. */
  ghost predicate TalkerFits(spec: Spec) {
    (exists p :: p in spec.portsOut && p.dynamic) ==>
      && (exists p :: p in spec.portsIn && p.dynamic)
      && (forall s :: s in spec.streamOutputs ==> s.formats != [])
      && forall j :: 0 <= j < |spec.portsOut| ==> TalkerPortFits(spec, j)
  }

  lemma {:induction false} TalkerFitsExactly(spec: Spec)
    ensures TalkerAccepts(spec, AnyDynamic(spec.portsIn)) <==> TalkerFits(spec)
  {
    forall j | 0 <= j < |spec.portsOut|
      ensures PortUsable(spec.portsOut[j], j, |spec.streamOutputs|) <==> TalkerPortFits(spec, j)
    {
      TemplatesAreStated(spec.portsOut[j]);
    }
    assert AllUsable(spec) <==> forall j :: 0 <= j < |spec.portsOut| ==> TalkerPortFits(spec, j);
  }

  /** A dynamic port that states a page; 0 states none. */
  ghost predicate HasPage(p: Port, v: nat) {
    p.dynamic && p.mapPage == Some(v) && v != 0
  }

  /** The dynamic input ports stay below cluster 64, state one page of at most 9, and have a page to serve. */
  ghost predicate ListenerFits(ports: seq<Port>) {
    && (forall p :: p in ports && p.dynamic ==> p.baseCluster + p.clusters <= 64)
    && (forall p, v :: p in ports && p.dynamic && p.mapPage == Some(v) ==> v <= 9)
    && (forall p, q, v, w :: p in ports && q in ports && HasPage(p, v) && HasPage(q, w) ==> v == w)
    && ((exists p :: p in ports && p.dynamic) ==>
          exists p :: p in ports && p.dynamic && (p.clusters > 0 || (p.mapPage.Some? && p.mapPage.value > 0)))
  }

  lemma {:induction false} ListenerFitsExactly(ports: seq<Port>)
    ensures ListenerAccepts(ports) <==> ListenerFits(ports)
  {
    if ListenerFits(ports) {
      forall p, q | p in ports && q in ports && StatesPage(p) && StatesPage(q) ensures p.mapPage == q.mapPage {
        assert HasPage(p, p.mapPage.value) && HasPage(q, q.mapPage.value);
      }
    }
    if ListenerAccepts(ports) {
      forall p, q, v, w | p in ports && q in ports && HasPage(p, v) && HasPage(q, w) ensures v == w {
        assert StatesPage(p) && StatesPage(q);
      }
    }
  }

  /** A model is built exactly from these specifications. */
  lemma {:induction false} BuildableExactly(spec: Spec)
    ensures Buildable(spec) <==>
            && NumbersFit(spec) && NamesFit(spec) && spec.streamOutputs != []
            && (exists s :: s in spec.streamInputs && s.kind == Aaf)
            && (exists s :: s in spec.streamInputs && s.kind == Crf)
            && ListenerFits(spec.portsIn) && TalkerFits(spec)
            && SideFits(Side(Input, spec.portsIn, spec.streamInputs), spec.audioMaps)
            && SideFits(Side(Output, spec.portsOut, spec.streamOutputs), spec.audioMaps)
            && RomSize(spec) <= 65536 - 64
  {
    NumbersFitExactly(spec);
    NamesFitExactly(spec);
    ListenerFitsExactly(spec.portsIn);
    TalkerFitsExactly(spec);
    MapsAcceptableExactly(spec);
  }
}
