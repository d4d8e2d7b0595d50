/**
 Names from the specification to the image document: every inline name of a built model is the
 specification's own, so whether the model can be documented is a condition on the specification.
 */
module SpecNames {
  import opened AemSpec
  import opened Assemble
  import opened BuildModel
  import opened Descriptors
  import opened DescriptorFields
  import opened Document
  import opened Identity
  import opened MapServing
  import opened ModelDocument
  import opened NameTable
  import opened Octets
  import opened TwoLevel
  import opened Wrappers

  // ----- the names a specification states

  /** Name s of descriptor (t, i), where the specification has such a named object. */
  function NameIn(spec: Spec, t: nat, i: nat, s: nat): Option<Bytes> {
    if t == ENTITY then
      if i == 0 && s == 0 then Some(spec.entity.name) else if i == 0 && s == 1 then Some(spec.entity.group) else None
    else if s != 0 then None
    else if t == STREAM_INPUT then StreamNameAt(spec.streamInputs, i)
    else if t == STREAM_OUTPUT then StreamNameAt(spec.streamOutputs, i)
    else if t == CLOCK_SOURCE then (if i < |spec.clockSources| then Some(spec.clockSources[i].name) else None)
    else if t == AUDIO_CLUSTER then At(ClusterNames(spec).0 + ClusterNames(spec).1, i)
    else if i != 0 then None
    else SingletonName(spec.names, t)
  }

  function StreamNameAt(ss: seq<Stream>, i: nat): Option<Bytes> {
    if i < |ss| then Some(ss[i].name) else None
  }

  function At(names: seq<Bytes>, i: nat): Option<Bytes> {
    if i < |names| then Some(names[i]) else None
  }

  function SingletonName(names: Names, t: nat): Option<Bytes> {
    if t == CONFIGURATION then Some(names.configuration)
    else if t == AUDIO_UNIT then Some(names.audioUnit)
    else if t == AVB_INTERFACE then Some(names.avbInterface)
    else if t == CLOCK_DOMAIN then Some(names.clockDomain)
    else if t == CONTROL then Some(names.controlIdentify)
    else None
  }

  // ----- every descriptor carries its own name

  /** Name s of this descriptor's inline field is the specification's. */
  ghost predicate HoldsName(spec: Spec, d: Desc, s: nat) {
    && NameIn(spec, d.typ, d.idx, s).Some?
    && NameOffset(d.typ, s) + NAME_BYTES <= |d.img|
    && d.img[NameOffset(d.typ, s)..NameOffset(d.typ, s) + NAME_BYTES] == Cstr(NameIn(spec, d.typ, d.idx, s).value)
  }

  ghost predicate Carries(spec: Spec, d: Desc) {
    d.typ == ENTITY || IsNamedType(d.typ) ==> forall s: nat :: s < Stride(d.typ) ==> HoldsName(spec, d, s)
  }

  ghost predicate AllCarry(spec: Spec, descs: seq<Desc>) {
    forall d :: d in descs ==> Carries(spec, d)
  }

  lemma {:induction false} OneCarries(spec: Spec, t: nat, i: nat, img: Bytes, name: Bytes)
    requires IsNamedType(t) && NameIn(spec, t, i, 0) == Some(name) && |img| >= 68 && img[4..68] == Cstr(name)
    ensures Carries(spec, Desc(t, i, img))
  {
  }

  lemma {:induction false} CarryConcat(spec: Spec, a: seq<Desc>, b: seq<Desc>)
    requires AllCarry(spec, a) && AllCarry(spec, b)
    ensures AllCarry(spec, a + b)
  {
  }

  lemma {:induction false} CarryFour(spec: Spec, a: seq<Desc>, b: seq<Desc>, c: seq<Desc>, d: seq<Desc>)
    requires AllCarry(spec, a) && AllCarry(spec, b) && AllCarry(spec, c) && AllCarry(spec, d)
    ensures AllCarry(spec, a + b + c + d)
  {
    CarryConcat(spec, a, b);
    CarryConcat(spec, a + b, c);
    CarryConcat(spec, a + b + c, d);
  }

  lemma {:induction false} FrontCarries(spec: Spec, entity: Bytes, config: Bytes, unit: Bytes, ins: seq<Desc>,
                                        outs: seq<Desc>, avb: Bytes, clocks: seq<Desc>, domain: Bytes, control: Bytes,
                                        locale: Bytes, strings: Bytes)
    requires Carries(spec, Desc(ENTITY, 0, entity)) && Carries(spec, Desc(CONFIGURATION, 0, config))
    requires Carries(spec, Desc(AUDIO_UNIT, 0, unit)) && AllCarry(spec, ins) && AllCarry(spec, outs)
    requires Carries(spec, Desc(AVB_INTERFACE, 0, avb)) && AllCarry(spec, clocks)
    requires Carries(spec, Desc(CLOCK_DOMAIN, 0, domain)) && Carries(spec, Desc(CONTROL, 0, control))
    ensures AllCarry(spec, [Desc(ENTITY, 0, entity)] + [Desc(CONFIGURATION, 0, config)] + [Desc(AUDIO_UNIT, 0, unit)]
                           + ins + outs + [Desc(AVB_INTERFACE, 0, avb)] + clocks + [Desc(CLOCK_DOMAIN, 0, domain)]
                           + [Desc(CONTROL, 0, control)] + [Desc(LOCALE, 0, locale)] + [Desc(STRINGS, 0, strings)])
  {
    var e, c, u := [Desc(ENTITY, 0, entity)], [Desc(CONFIGURATION, 0, config)], [Desc(AUDIO_UNIT, 0, unit)];
    var a, d, k := [Desc(AVB_INTERFACE, 0, avb)], [Desc(CLOCK_DOMAIN, 0, domain)], [Desc(CONTROL, 0, control)];
    CarryFour(spec, e, c, u, ins);
    CarryFour(spec, e + c + u + ins, outs, a, clocks);
    CarryFour(spec, e + c + u + ins + outs + a + clocks, d, k, [Desc(LOCALE, 0, locale)]);
    CarryConcat(spec, e + c + u + ins + outs + a + clocks + d + k + [Desc(LOCALE, 0, locale)], [Desc(STRINGS, 0, strings)]);
  }

  lemma {:induction false} NameBehindHeader(header: Bytes, tail: Bytes, name: Bytes)
    requires |header| >= 68 && header[4..68] == Cstr(name)
    ensures (header + tail)[4..68] == Cstr(name)
  {
    SliceOfFront(header, tail, 4, 68);
  }

  lemma {:induction false} StreamCarries(spec: Spec, dtype: nat, k: nat, s: Stream)
    requires dtype == STREAM_INPUT || dtype == STREAM_OUTPUT
    requires StreamImage(dtype, k, s).Ok? && NameIn(spec, dtype, k, 0) == Some(s.name)
    ensures Carries(spec, Desc(dtype, k, StreamImage(dtype, k, s).value))
  {
    var flags := if dtype == STREAM_INPUT || s.kind == Crf then 3 else 2;
    var buffer := if dtype == STREAM_INPUT then s.buffer else 0;
    var h := StreamHeader(dtype, k, s.name, flags, s.formats[0], |s.formats|, buffer);
    NameBehindHeader(h, Flat(FormatRecords(s.formats)), s.name);
    OneCarries(spec, dtype, k, StreamImage(dtype, k, s).value, s.name);
  }

  lemma {:induction false} StreamsCarry(spec: Spec, dtype: nat, ss: seq<Stream>)
    requires (dtype == STREAM_INPUT && ss == spec.streamInputs) || (dtype == STREAM_OUTPUT && ss == spec.streamOutputs)
    requires StreamDescs(dtype, ss).Ok?
    ensures AllCarry(spec, StreamDescs(dtype, ss).value)
  {
    var group := StreamDescs(dtype, ss).value;
    StreamDescsGroup(dtype, ss);
    forall d | d in group ensures Carries(spec, d) {
      var k :| 0 <= k < |group| && group[k] == d;
      StreamCarries(spec, dtype, k, ss[k]);
    }
  }

  lemma {:induction false} ClockSourcesCarry(spec: Spec)
    ensures AllCarry(spec, ClockSourceDescs(spec.clockSources))
  {
    forall d | d in ClockSourceDescs(spec.clockSources) ensures Carries(spec, d) {
      OneCarries(spec, CLOCK_SOURCE, d.idx, d.img, spec.clockSources[d.idx].name);
    }
  }

  lemma {:induction false} SingletonsCarry(spec: Spec)
    requires UnitBytes(spec).Ok?
    ensures forall i: nat, o: nat, c: nat ::
              Carries(spec, Desc(CONFIGURATION, 0, ConfigurationBytes(i, o, c, spec.names.configuration)))
    ensures Carries(spec, Desc(AUDIO_UNIT, 0, UnitBytes(spec).value))
    ensures Carries(spec, Desc(AVB_INTERFACE, 0, AvbInterfaceBytes(spec.gptp, spec.names.avbInterface)))
    ensures forall n: nat :: Carries(spec, Desc(CLOCK_DOMAIN, 0, ClockDomainBytes(n, spec.names.clockDomain)))
    ensures Carries(spec, Desc(CONTROL, 0, ControlIdentifyBytes(spec.names.controlIdentify)))
  {
    var names := spec.names;
    forall i: nat, o: nat, c: nat
      ensures Carries(spec, Desc(CONFIGURATION, 0, ConfigurationBytes(i, o, c, names.configuration)))
    {
      NameBehindHeader(ConfigurationHeader(names.configuration, 8), Flat(CountRecords(ConfigurationCounts(i, o, c))),
                       names.configuration);
      OneCarries(spec, CONFIGURATION, 0, ConfigurationBytes(i, o, c, names.configuration), names.configuration);
    }
    var unit := AudioUnitHeader(names.audioUnit, spec.currentRate, |spec.portsIn|, |spec.portsOut|, |spec.rates|);
    NameBehindHeader(unit, Flat(RateRecords(spec.rates)), names.audioUnit);
    OneCarries(spec, AUDIO_UNIT, 0, UnitBytes(spec).value, names.audioUnit);
    OneCarries(spec, AVB_INTERFACE, 0, AvbInterfaceBytes(spec.gptp, names.avbInterface), names.avbInterface);
    forall n: nat ensures Carries(spec, Desc(CLOCK_DOMAIN, 0, ClockDomainBytes(n, names.clockDomain))) {
      NameBehindHeader(ClockDomainHeader(names.clockDomain, n), Flat(SourceRecords(n)), names.clockDomain);
      OneCarries(spec, CLOCK_DOMAIN, 0, ClockDomainBytes(n, names.clockDomain), names.clockDomain);
    }
    OneCarries(spec, CONTROL, 0, ControlIdentifyBytes(names.controlIdentify), names.controlIdentify);
  }

  lemma {:induction false} EntityCarriesNames(spec: Spec)
    ensures Carries(spec, Desc(ENTITY, 0, EntityBytes(spec.entity)))
  {
    var d := Desc(ENTITY, 0, EntityBytes(spec.entity));
    forall s: nat | s < Stride(ENTITY) ensures HoldsName(spec, d, s) {
    }
  }

  lemma {:induction false} EntityFrontCarries(spec: Spec)
    requires EntityDescriptors(spec).Ok?
    ensures AllCarry(spec, EntityDescriptors(spec).value)
  {
    var si, so, nClk := spec.streamInputs, spec.streamOutputs, |spec.clockSources|;
    EntityCarriesNames(spec);
    SingletonsCarry(spec);
    StreamsCarry(spec, STREAM_INPUT, si);
    StreamsCarry(spec, STREAM_OUTPUT, so);
    ClockSourcesCarry(spec);
    FrontCarries(spec, EntityBytes(spec.entity), ConfigurationBytes(|si|, |so|, nClk, spec.names.configuration),
                 UnitBytes(spec).value, StreamDescs(STREAM_INPUT, si).value, StreamDescs(STREAM_OUTPUT, so).value,
                 AvbInterfaceBytes(spec.gptp, spec.names.avbInterface), ClockSourceDescs(spec.clockSources),
                 ClockDomainBytes(nClk, spec.names.clockDomain), ControlIdentifyBytes(spec.names.controlIdentify),
                 LocaleBytes(spec.locale), StringsBytes(spec.entity.name, spec.ratesString, spec.entity.vendor));
  }

  lemma {:induction false} ClustersCarry(spec: Spec)
    requires ClustersNamed(spec)
    ensures AllCarry(spec, ClusterDescs(spec))
  {
    var names := ClusterNames(spec).0 + ClusterNames(spec).1;
    forall d | d in ClusterDescs(spec) ensures Carries(spec, d) {
      OneCarries(spec, AUDIO_CLUSTER, d.idx, d.img, names[d.idx]);
    }
  }

  lemma {:induction false} UnnamedCarry(spec: Spec, group: seq<Desc>, t: nat)
    requires IsGroup(group, t) && t != ENTITY && !IsNamedType(t)
    ensures AllCarry(spec, group)
  {
  }

  /** Every descriptor of every specification carries the names that specification gives it. */
  lemma {:induction false} DescriptorsCarryTheirNames(spec: Spec)
    requires AllDescriptors(spec).Ok?
    ensures AllCarry(spec, AllDescriptors(spec).value)
  {
    EntityFrontCarries(spec);
    UnnamedCarry(spec, PortDescs(STREAM_PORT_INPUT, spec.portsIn), STREAM_PORT_INPUT);
    UnnamedCarry(spec, PortDescs(STREAM_PORT_OUTPUT, spec.portsOut), STREAM_PORT_OUTPUT);
    ClustersCarry(spec);
    UnnamedCarry(spec, MapDescs(spec.audioMaps), AUDIO_MAP);
    CarryFour(spec, PortDescs(STREAM_PORT_INPUT, spec.portsIn), PortDescs(STREAM_PORT_OUTPUT, spec.portsOut),
              ClusterDescs(spec), MapDescs(spec.audioMaps));
    CarryConcat(spec, EntityDescriptors(spec).value, PortDescriptors(spec).value);
  }

  /** Every name the specification states belongs to one of its descriptors. */
  lemma {:induction false} NamedIsDescribed(spec: Spec, descs: seq<Desc>, t: nat, i: nat, s: nat) returns (d: Desc)
    requires AllDescriptors(spec) == Ok(descs) && NameIn(spec, t, i, s).Some?
    ensures d in descs && d.typ == t && d.idx == i && (t == ENTITY || IsNamedType(t)) && s < Stride(t)
  {
    DescriptorsPresent(spec);
    if t == ENTITY {
      d := descs[0];
    } else if t == STREAM_INPUT || t == STREAM_OUTPUT {
      StreamPresent(spec, t, i);
      d := Desc(t, i, StreamImage(t, i, (if t == STREAM_INPUT then spec.streamInputs else spec.streamOutputs)[i]).value);
    } else if t == CLOCK_SOURCE {
      d := ClockSourceDescs(spec.clockSources)[i];
    } else if t == AUDIO_CLUSTER {
      d := ClusterDescs(spec)[i];
    } else if t == CONFIGURATION {
      d := Desc(t, 0, ConfigBytes(spec));
    } else if t == AUDIO_UNIT {
      d := Desc(t, 0, UnitBytes(spec).value);
    } else if t == AVB_INTERFACE {
      d := Desc(t, 0, AvbInterfaceBytes(spec.gptp, spec.names.avbInterface));
    } else if t == CLOCK_DOMAIN {
      d := Desc(t, 0, ClockDomainBytes(|spec.clockSources|, spec.names.clockDomain));
    } else {
      d := Desc(t, 0, ControlIdentifyBytes(spec.names.controlIdentify));
    }
  }

  // ----- when a stated name is text

  /** The octets of a name its inline field keeps. */
  function Kept(name: Bytes): Bytes {
    if |name| <= NAME_BYTES then name else name[..NAME_BYTES]
  }

  /** The text that field reads as. */
  function TextOf(name: Bytes): Bytes {
    Kept(name)[..FirstNul(Kept(name))]
  }

  /** Nothing but NULs behind the first NUL of the kept octets, and what is before it decodes. */
  predicate IsText(name: Bytes, utf8: Bytes -> bool) {
    && (forall i :: FirstNul(Kept(name)) <= i < |Kept(name)| ==> Kept(name)[i] == 0)
    && utf8(TextOf(name))
  }

  lemma {:induction false} FirstNulIs(raw: Bytes, n: nat)
    requires n <= |raw| && 0 !in raw[..n] && (n < |raw| ==> raw[n] == 0)
    ensures FirstNul(raw) == n
  {
    if n > 0 {
      assert raw[..n][0] == raw[0] && raw[1..][..n - 1] == raw[..n][1..];
      FirstNulIs(raw[1..], n - 1);
    }
  }

  lemma {:induction false} FieldNul(name: Bytes)
    ensures FirstNul(Cstr(name)) == FirstNul(Kept(name)) && Cstr(name)[..FirstNul(Kept(name))] == TextOf(name)
  {
    var k, n := Kept(name), FirstNul(Kept(name));
    assert Cstr(name) == k + Zeros(NAME_BYTES - |k|);
    assert Cstr(name)[..n] == k[..n];
    FirstNulIs(Cstr(name), n);
  }

  /** What a name's inline field reads as, or that it is refused. */
  lemma {:induction false} FieldReads(name: Bytes, utf8: Bytes -> bool)
    ensures TextFromName(Cstr(name), utf8) == if IsText(name, utf8) then Ok(TextOf(name)) else Err
  {
    var k, n := Kept(name), FirstNul(Kept(name));
    FieldNul(name);
    assert Cstr(name) == k + Zeros(NAME_BYTES - |k|);
    if forall i :: n <= i < |k| ==> k[i] == 0 {
      assert Cstr(k[..n]) == Cstr(name);
      assert forall i :: n <= i < NAME_BYTES ==> Cstr(name)[i] == 0;
    } else {
      var i :| n <= i < |k| && k[i] != 0;
      assert Cstr(name)[i] == k[i];
    }
  }

  /** Every stated name is text. */
  ghost predicate SpecNamesAreText(spec: Spec, utf8: Bytes -> bool) {
    forall t: nat, i: nat, s: nat :: NameIn(spec, t, i, s).Some? ==> IsText(NameIn(spec, t, i, s).value, utf8)
  }

  // ----- the names of a built model

  /** A row's name field holds the name its descriptor carries. */
  lemma {:induction false} FieldIsStated(spec: Spec, d: Desc, rom: Bytes, base: nat, s: nat)
    requires Carries(spec, d) && (d.typ == ENTITY || IsNamedType(d.typ)) && s < Stride(d.typ)
    requires base + |d.img| <= |rom| && rom[base..base + |d.img|] == d.img
    ensures NameIn(spec, d.typ, d.idx, s).Some?
    ensures NameField(rom, base, d.typ, s) == Cstr(NameIn(spec, d.typ, d.idx, s).value)
  {
    assert HoldsName(spec, d, s);
    FieldOfSpan(rom, base, d.img, NameOffset(d.typ, s), NAME_BYTES);
  }

  lemma {:induction false} FieldOfSpan(rom: Bytes, base: nat, img: Bytes, at: nat, w: nat)
    requires base + |img| <= |rom| && rom[base..base + |img|] == img && at + w <= |img| && 0 < w
    ensures Slice(rom, base + at, base + at + w) == img[at..at + w]
  {
    SliceOfSlice(rom, base, |img|, at, w);
  }

  ghost predicate FieldsAreStated(spec: Spec, dir: seq<Entry>, rom: Bytes) {
    forall r, s: nat :: 0 <= r < |dir| && CarriesName(dir, r) && s < Stride(dir[r].typ) ==> StatedAt(spec, dir, rom, r, s)
  }

  ghost predicate StatedAt(spec: Spec, dir: seq<Entry>, rom: Bytes, r: nat, s: nat)
    requires r < |dir|
  {
    && NameIn(spec, dir[r].typ, dir[r].idx, s).Some?
    && NameField(rom, dir[r].base, dir[r].typ, s) == Cstr(NameIn(spec, dir[r].typ, dir[r].idx, s).value)
  }

  lemma {:induction false} CarriedIsStated(spec: Spec, descs: seq<Desc>, dir: seq<Entry>, rom: Bytes)
    requires AllCarry(spec, descs) && Single(descs, dir)
    requires forall r :: 0 <= r < |descs| ==> SpanOf(descs, rom, dir, r)
    ensures FieldsAreStated(spec, dir, rom)
  {
    forall r, s: nat | 0 <= r < |dir| && CarriesName(dir, r) && s < Stride(dir[r].typ) ensures StatedAt(spec, dir, rom, r, s) {
      assert RowDescribes(descs, dir, r) && SpanOf(descs, rom, dir, r) && descs[r] in descs;
      FieldIsStated(spec, descs[r], rom, dir[r].base, s);
    }
  }

  /** Every named row's inline fields are the specification's own names, cut and padded to 64 octets. */
  lemma {:induction false} ModelHoldsItsNames(m: Model, spec: Spec)
    requires IsModelOf(m, spec)
    ensures FieldsAreStated(spec, m.directory, m.rom)
  {
    var descs, e, avb, a := TakeApart(m, spec);
    BuiltIsSingle(spec, descs);
    DescriptorsCarryTheirNames(spec);
    SpansHoldImages(descs);
    CarriedIsStated(spec, descs, m.directory, m.rom);
  }

  /** Conversely every stated name has its row. */
  lemma {:induction false} StatedHasARow(m: Model, spec: Spec, t: nat, i: nat, s: nat) returns (r: nat)
    requires IsModelOf(m, spec) && NameIn(spec, t, i, s).Some?
    ensures r < |m.directory| && m.directory[r].typ == t && m.directory[r].idx == i
    ensures CarriesName(m.directory, r) && s < Stride(t)
  {
    var descs, e, avb, a := TakeApart(m, spec);
    var d := NamedIsDescribed(spec, descs, t, i, s);
    BuiltIsSingle(spec, descs);
    SingleIsLaidOut(descs, m.directory);
    r :| 0 <= r < |descs| && descs[r] == d;
    assert RowDescribes(descs, m.directory, r) && RowLayout(m.directory, r);
  }

  lemma {:induction false} StatedTextReads(spec: Spec, dir: seq<Entry>, rom: Bytes, utf8: Bytes -> bool)
    requires FieldsAreStated(spec, dir, rom) && SpecNamesAreText(spec, utf8)
    ensures NamesAreText(rom, dir, utf8)
  {
    forall r, s: nat | 0 <= r < |dir| && CarriesName(dir, r) && s < Stride(dir[r].typ)
      ensures TextFromName(NameField(rom, dir[r].base, dir[r].typ, s), utf8).Ok?
    {
      assert StatedAt(spec, dir, rom, r, s);
      FieldReads(NameIn(spec, dir[r].typ, dir[r].idx, s).value, utf8);
    }
    forall r | 0 <= r < |dir| ensures RowNamesAreText(rom, dir, utf8, r) {
    }
  }

  lemma {:induction false} ReadTextIsStated(m: Model, spec: Spec, utf8: Bytes -> bool, t: nat, i: nat, s: nat)
    requires IsModelOf(m, spec) && FieldsAreStated(spec, m.directory, m.rom) && NamesAreText(m.rom, m.directory, utf8)
    requires NameIn(spec, t, i, s).Some?
    ensures IsText(NameIn(spec, t, i, s).value, utf8)
  {
    var r := StatedHasARow(m, spec, t, i, s);
    assert StatedAt(spec, m.directory, m.rom, r, s) && RowNamesAreText(m.rom, m.directory, utf8, r);
    FieldReads(NameIn(spec, t, i, s).value, utf8);
  }

  /** The ROM's names are text exactly when the specification's are. */
  lemma {:induction false} NamesAreTextAsStated(m: Model, spec: Spec, utf8: Bytes -> bool)
    requires IsModelOf(m, spec)
    ensures NamesAreText(m.rom, m.directory, utf8) <==> SpecNamesAreText(spec, utf8)
  {
    ModelHoldsItsNames(m, spec);
    if SpecNamesAreText(spec, utf8) {
      StatedTextReads(spec, m.directory, m.rom, utf8);
    }
    if NamesAreText(m.rom, m.directory, utf8) {
      forall t: nat, i: nat, s: nat | NameIn(spec, t, i, s).Some? ensures IsText(NameIn(spec, t, i, s).value, utf8) {
        ReadTextIsStated(m, spec, utf8, t, i, s);
      }
    }
  }

  /** A built model is documented exactly when its identity is resolved and every stated name is text. */
  lemma {:induction false} DocumentableAsStated(m: Model, spec: Spec, ident: Ident, utf8: Bytes -> bool)
    requires IsModelOf(m, spec)
    ensures Documentable(m.rom, m.directory, m.overlays, m.named, ident, utf8)
            <==> (forall o :: o in m.overlays ==> Unbaked(o.src) || Resolved(o, ident)) && SpecNamesAreText(spec, utf8)
  {
    BuiltModelsAreDocumentable(m, spec, ident, utf8);
    NamesAreTextAsStated(m, spec, utf8);
  }

  // ----- the document's names are the specification's

  lemma {:induction false} TextOfField(text: Bytes, name: Bytes)
    requires |text| <= NAME_BYTES && 0 !in text && Cstr(text) == Cstr(name)
    ensures text == TextOf(name)
  {
    var raw := Cstr(text);
    assert raw[..|text|] == text;
    assert |text| < NAME_BYTES ==> raw[|text|] == 0;
    FirstNulIs(raw, |text|);
    FieldNul(name);
  }

  /** Row r's name s, as the document lists it. */
  ghost predicate ListsName(doc: Doc, r: nat, s: nat, text: Bytes)
    requires r < |doc.descriptors|
  {
    var d := doc.descriptors[r];
    d.name.Some? && d.name.value + s < |doc.names| && doc.names[d.name.value + s] == text
  }

  /** A text listed for a field that holds a name is that name's text. */
  lemma {:induction false} TextServed(text: Bytes, octets: Bytes, baked: Bytes, base: nat, length: nat, at: nat,
                                      name: Bytes)
    requires octets == Slice(baked, base, base + length) && at + NAME_BYTES <= |octets|
    requires Cstr(text) == octets[at..at + NAME_BYTES] && |text| <= NAME_BYTES && 0 !in text
    requires Slice(baked, base + at, base + at + NAME_BYTES) == Cstr(name)
    ensures text == TextOf(name)
  {
    SliceReads(baked, base, length, at, NAME_BYTES);
    TextOfField(text, name);
  }

  lemma {:induction false} RowListsName(dir: seq<Entry>, rom: Bytes, baked: Bytes, doc: Doc, slots: Slots, r: nat,
                                        s: nat, name: Bytes)
    requires IsDocumentOf(doc, baked, dir, slots) && r < |dir| && KeyOf(dir[r]) in slots && s < Stride(dir[r].typ)
    requires NameField(rom, dir[r].base, dir[r].typ, s) == Cstr(name)
    requires NameField(baked, dir[r].base, dir[r].typ, s) == NameField(rom, dir[r].base, dir[r].typ, s)
    ensures ListsName(doc, r, s, TextOf(name))
  {
    assert RowIs(doc, baked, dir, r) && RowCoherent(doc, slots, r);
    var d, e := doc.descriptors[r], dir[r];
    assert NameServed(doc, d, s);
    TextServed(doc.names[d.name.value + s], d.octets, baked, e.base, e.length, NameOffset(e.typ, s), name);
  }

  lemma {:induction false} SliceReads(rom: Bytes, base: nat, length: nat, at: nat, w: nat)
    requires at + w <= |Slice(rom, base, base + length)| && 0 < w
    ensures Slice(rom, base + at, base + at + w) == Slice(rom, base, base + length)[at..at + w]
  {
    var cut := Slice(rom, base, base + length);
    assert cut == rom[base..base + |cut|];
    SliceOfSlice(rom, base, |cut|, at, w);
  }

  /**
   A built model's document lists, for every name the specification states, the text of its first 64
   octets; that is the name itself exactly when the name fits, holds no NUL and decodes.
   */
  lemma {:induction false} DocumentListsTheNames(m: Model, spec: Spec, ident: Ident, baked: Bytes, utf8: Bytes -> bool,
                                                 doc: Doc, t: nat, i: nat, s: nat) returns (r: nat)
    requires IsModelOf(m, spec) && Baked(m.rom, m.overlays, ident) == Ok(baked)
    requires Documentable(m.rom, m.directory, m.overlays, m.named, ident, utf8)
    requires IsDocumentOf(doc, baked, m.directory, SlotMap(m.named)) && NameIn(spec, t, i, s).Some?
    ensures r < |doc.descriptors| && doc.descriptors[r].typ == t && doc.descriptors[r].idx == i
    ensures ListsName(doc, r, s, TextOf(NameIn(spec, t, i, s).value))
    ensures var name := NameIn(spec, t, i, s).value;
            ListsName(doc, r, s, name) <==> |name| <= NAME_BYTES && 0 !in name && utf8(name)
  {
    r := StatedHasARow(m, spec, t, i, s);
    NameIsListed(m, spec, ident, baked, doc, r, s);
    DocumentableAsStated(m, spec, ident, utf8);
    var name := NameIn(spec, t, i, s).value;
    assert RowIs(doc, baked, m.directory, r);
    FieldReads(name, utf8);
    NameRoundTrip(name, utf8);
  }

  lemma {:induction false} NameIsListed(m: Model, spec: Spec, ident: Ident, baked: Bytes, doc: Doc, r: nat, s: nat)
    requires IsModelOf(m, spec) && Baked(m.rom, m.overlays, ident) == Ok(baked)
    requires IsDocumentOf(doc, baked, m.directory, SlotMap(m.named))
    requires r < |m.directory| && CarriesName(m.directory, r) && s < Stride(m.directory[r].typ)
    ensures NameIn(spec, m.directory[r].typ, m.directory[r].idx, s).Some?
    ensures ListsName(doc, r, s, TextOf(NameIn(spec, m.directory[r].typ, m.directory[r].idx, s).value))
  {
    ModelIsLaidOut(m, spec);
    ModelHoldsItsNames(m, spec);
    ModelNamesKept(m, spec, ident, baked);
    LaidOutListsName(m.directory, m.rom, baked, doc, SlotMap(m.named), spec, r, s);
  }

  lemma {:induction false} LaidOutListsName(dir: seq<Entry>, rom: Bytes, baked: Bytes, doc: Doc, slots: Slots,
                                            spec: Spec, r: nat, s: nat)
    requires Layout(dir) && SlotsOf(slots, NamedAddresses(dir, 0)) && slots == SlotMap(NamedAddresses(dir, 0))
    requires FieldsAreStated(spec, dir, rom) && NamesKept(rom, baked, dir) && IsDocumentOf(doc, baked, dir, slots)
    requires r < |dir| && CarriesName(dir, r) && s < Stride(dir[r].typ)
    ensures NameIn(spec, dir[r].typ, dir[r].idx, s).Some?
    ensures ListsName(doc, r, s, TextOf(NameIn(spec, dir[r].typ, dir[r].idx, s).value))
  {
    assert StatedAt(spec, dir, rom, r, s) && NameKept(rom, baked, dir, r);
    RowHasItsSlots(dir, slots, r);
    RowListsName(dir, rom, baked, doc, slots, r, s, NameIn(spec, dir[r].typ, dir[r].idx, s).value);
  }

  lemma {:induction false} ModelNamesKept(m: Model, spec: Spec, ident: Ident, baked: Bytes)
    requires IsModelOf(m, spec) && Baked(m.rom, m.overlays, ident) == Ok(baked)
    ensures NamesKept(m.rom, baked, m.directory)
  {
    var descs, e, avb, a := TakeApart(m, spec);
    BuiltIsSingle(spec, descs);
    NamesDoNotMove(descs, e, avb, a, ident, baked);
  }
}
