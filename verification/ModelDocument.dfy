/**
 The document of a built model: the join of avdecc/gen_aemi_image.py never refuses one for its
 layout, baking moves no name, and the rows of one type number their names at a stride.
 */
module ModelDocument {
  import opened AemSpec
  import opened Assemble
  import opened BuildModel
  import opened Descriptors
  import opened DescriptorFields
  import opened Document
  import opened Identity
  import opened MapServing
  import opened NameSplit
  import opened NameTable
  import opened Octets
  import opened TwoLevel
  import opened Wrappers
  import ImageAudit

  // ----- the names of a directory

  /** ENTITY first and only there, distinct keys, and room for the name each named type carries. */
  ghost predicate Layout(dir: seq<Entry>) {
    && dir != [] && dir[0] == Entry(ENTITY, 0, 0, 312) && DistinctKeys(dir)
    && forall r :: 0 <= r < |dir| ==> RowLayout(dir, r)
  }

  ghost predicate RowLayout(dir: seq<Entry>, r: nat)
    requires r < |dir|
  {
    (dir[r].typ == ENTITY ==> r == 0) && (IsNamedType(dir[r].typ) ==> dir[r].length >= 4 + NAME_BYTES)
  }

  predicate CarriesName(dir: seq<Entry>, r: nat)
    requires r < |dir|
  {
    r == 0 || IsNamedType(dir[r].typ)
  }

  function NameOfRow(dir: seq<Entry>, r: nat, s: nat): Named
    requires r < |dir|
  {
    Named(dir[r].typ, dir[r].idx, s, dir[r].base + NameOffset(dir[r].typ, s))
  }

  /** Every NAMED entry names a row that carries names, and each such name is listed. */
  lemma {:induction false} NamedAreRowNames(dir: seq<Entry>, e: Named) returns (r: nat)
    requires Layout(dir) && e in NamedAddresses(dir, 0)
    ensures r < |dir| && CarriesName(dir, r) && e.nidx < Stride(dir[r].typ) && e == NameOfRow(dir, r, e.nidx)
  {
    NamedRowsMeaning(dir, e);
    if e in NamedRows(dir) {
      r :| 0 <= r < |dir| && IsNamedType(dir[r].typ) && e == Named(dir[r].typ, dir[r].idx, 0, dir[r].base + 4);
    } else {
      r := 0;
    }
  }

  lemma {:induction false} RowNamesAreNamed(dir: seq<Entry>, r: nat, s: nat)
    requires Layout(dir) && r < |dir| && CarriesName(dir, r) && s < Stride(dir[r].typ)
    ensures NameOfRow(dir, r, s) in NamedAddresses(dir, 0)
  {
    if r > 0 {
      assert RowLayout(dir, r);
      NamedRowsMeaning(dir, NameOfRow(dir, r, s));
      assert NameOfRow(dir, r, s) == Named(dir[r].typ, dir[r].idx, 0, dir[r].base + 4);
    }
  }

  /** The slots of one row: present exactly when it carries names, and then at its own addresses. */
  ghost predicate SlotsOfRow(slots: Slots, dir: seq<Entry>, r: nat)
    requires r < |dir|
  {
    var k := KeyOf(dir[r]);
    && (k in slots <==> CarriesName(dir, r))
    && (k in slots ==> HasExpected(slots[k], k.typ) && forall s: nat :: s < Stride(k.typ) ==>
          s in slots[k] && slots[k][s] == dir[r].base + NameOffset(k.typ, s))
  }

  lemma {:induction false} SameKeySameRow(dir: seq<Entry>, q: nat, r: nat)
    requires DistinctKeys(dir) && q < |dir| && r < |dir|
    ensures KeyOf(dir[q]) == KeyOf(dir[r]) ==> q == r
  {
    if q < r {
      assert KeysDiffer(dir, q, r);
    } else if r < q {
      assert KeysDiffer(dir, r, q);
    }
  }

  lemma {:induction false} SlotIsRowName(dir: seq<Entry>, slots: Slots, r: nat, s: nat)
    requires Layout(dir) && SlotsOf(slots, NamedAddresses(dir, 0)) && r < |dir|
    requires KeyOf(dir[r]) in slots && s in slots[KeyOf(dir[r])]
    ensures CarriesName(dir, r) && s < Stride(dir[r].typ)
  {
    var k := KeyOf(dir[r]);
    var e := Named(k.typ, k.idx, s, slots[k][s]);
    assert e in NamedAddresses(dir, 0);
    var q := NamedAreRowNames(dir, e);
    SameKeySameRow(dir, q, r);
  }

  lemma {:induction false} RowNameIsSlotted(dir: seq<Entry>, slots: Slots, r: nat, s: nat)
    requires Layout(dir) && r < |dir| && SlotsOf(slots, NamedAddresses(dir, 0))
    requires CarriesName(dir, r) && s < Stride(dir[r].typ)
    ensures KeyOf(dir[r]) in slots && s in slots[KeyOf(dir[r])]
    ensures slots[KeyOf(dir[r])][s] == dir[r].base + NameOffset(dir[r].typ, s)
  {
    RowNamesAreNamed(dir, r, s);
    assert Slotted(slots, NameOfRow(dir, r, s));
  }

  lemma {:induction false} RowHasItsSlots(dir: seq<Entry>, slots: Slots, r: nat)
    requires Layout(dir) && r < |dir| && SlotsOf(slots, NamedAddresses(dir, 0)) && slots == SlotMap(NamedAddresses(dir, 0))
    ensures SlotsOfRow(slots, dir, r)
  {
    var k := KeyOf(dir[r]);
    if CarriesName(dir, r) {
      RowNameIsSlotted(dir, slots, r, 0);
      forall s: nat | s < Stride(k.typ) ensures s in slots[k] && slots[k][s] == dir[r].base + NameOffset(k.typ, s) {
        RowNameIsSlotted(dir, slots, r, s);
      }
      forall s | s in slots[k] ensures s < Stride(k.typ) {
        SlotIsRowName(dir, slots, r, s);
      }
    } else if k in slots {
      var s := NoEmptySlots(NamedAddresses(dir, 0), k);
      SlotIsRowName(dir, slots, r, s);
    }
  }

  // ----- the names are well placed; only their text can be refused

  ghost predicate RowNamesAreText(rom: Bytes, dir: seq<Entry>, utf8: Bytes -> bool, r: nat)
    requires r < |dir|
  {
    CarriesName(dir, r) ==> forall s: nat :: s < Stride(dir[r].typ) ==>
      TextFromName(NameField(rom, dir[r].base, dir[r].typ, s), utf8).Ok?
  }

  ghost predicate NamesAreText(rom: Bytes, dir: seq<Entry>, utf8: Bytes -> bool) {
    forall r :: 0 <= r < |dir| ==> RowNamesAreText(rom, dir, utf8, r)
  }

  lemma {:induction false} RowIsWellNamed(rom: Bytes, dir: seq<Entry>, slots: Slots, utf8: Bytes -> bool,
                                          dict: map<DescKey, Span>, r: nat)
    requires Layout(dir) && r < |dir| && DictAt(dict, dir, r) && SlotsOfRow(slots, dir, r) && KeyOf(dir[r]) in slots
    ensures KeyWellNamed(rom, dict, slots, utf8, KeyOf(dir[r])) <==> RowNamesAreText(rom, dir, utf8, r)
  {
    var k := KeyOf(dir[r]);
    assert RowLayout(dir, r);
    if RowNamesAreText(rom, dir, utf8, r) {
      forall s: nat | s < Stride(k.typ) ensures NameOk(rom, dict[k].base, dict[k].length, k.typ, s, slots[k], utf8) {
      }
    }
    if KeyWellNamed(rom, dict, slots, utf8, k) {
      forall s: nat | s < Stride(k.typ) ensures TextFromName(NameField(rom, dir[r].base, k.typ, s), utf8).Ok? {
        assert NameOk(rom, dict[k].base, dict[k].length, k.typ, s, slots[k], utf8);
      }
    }
  }

  /** No type mixes named and unnamed descriptors. */
  lemma {:induction false} TypesAreNotMixed(dir: seq<Entry>, slots: Slots, t: nat)
    requires Layout(dir) && forall r :: 0 <= r < |dir| ==> SlotsOfRow(slots, dir, r)
    ensures TypeNotMixed(DirectoryDict(dir), slots, t)
  {
    forall i, j | DescKey(t, i) in DirectoryDict(dir) && DescKey(t, j) in DirectoryDict(dir) && DescKey(t, i) in slots
      ensures DescKey(t, j) in slots
    {
      DictKeys(dir, DescKey(t, i));
      DictKeys(dir, DescKey(t, j));
      var q :| 0 <= q < |dir| && RowCarries(dir, q, DescKey(t, i));
      var r :| 0 <= r < |dir| && RowCarries(dir, r, DescKey(t, j));
      assert SlotsOfRow(slots, dir, q) && SlotsOfRow(slots, dir, r);
      assert RowLayout(dir, q) && RowLayout(dir, r);
    }
  }

  /** A laid-out directory's names are well placed, so the table is refused only for a name that is no text. */
  lemma {:induction false} WellNamedIffText(rom: Bytes, dir: seq<Entry>, slots: Slots, utf8: Bytes -> bool)
    requires Layout(dir) && forall r :: 0 <= r < |dir| ==> SlotsOfRow(slots, dir, r)
    ensures WellNamed(rom, DirectoryDict(dir), slots, utf8) <==> NamesAreText(rom, dir, utf8)
  {
    var dict := DirectoryDict(dir);
    forall t: nat ensures TypeNotMixed(dict, slots, t) {
      TypesAreNotMixed(dir, slots, t);
    }
    forall r | 0 <= r < |dir| && KeyOf(dir[r]) in slots
      ensures KeyOf(dir[r]) in dict
      ensures KeyWellNamed(rom, dict, slots, utf8, KeyOf(dir[r])) <==> RowNamesAreText(rom, dir, utf8, r)
    {
      DictSpans(dir, r);
      RowIsWellNamed(rom, dir, slots, utf8, dict, r);
    }
    if WellNamed(rom, dict, slots, utf8) {
      forall r | 0 <= r < |dir| ensures RowNamesAreText(rom, dir, utf8, r) {
        assert SlotsOfRow(slots, dir, r);
      }
    }
    if NamesAreText(rom, dir, utf8) {
      forall k | k in dict && k in slots ensures KeyWellNamed(rom, dict, slots, utf8, k) {
        DictKeys(dir, k);
        var r :| 0 <= r < |dir| && RowCarries(dir, r, k);
        assert RowNamesAreText(rom, dir, utf8, r);
      }
    }
  }

  // ----- the layout of a built model

  /** ENTITY and AVB_INTERFACE have one descriptor each. */
  ghost predicate SingleIdentity(descs: seq<Desc>) {
    forall d :: d in descs && (d.typ == ENTITY || d.typ == AVB_INTERFACE) ==> d.idx == 0
  }

  lemma {:induction false} FrontIsSingle(entity: Bytes, config: Bytes, unit: Bytes, ins: seq<Desc>, outs: seq<Desc>,
                                         avb: Bytes, clocks: seq<Desc>, domain: Bytes, control: Bytes, locale: Bytes,
                                         strings: Bytes)
    requires IsGroup(ins, STREAM_INPUT) && IsGroup(outs, STREAM_OUTPUT) && IsGroup(clocks, CLOCK_SOURCE)
    ensures SingleIdentity([Desc(ENTITY, 0, entity)] + [Desc(CONFIGURATION, 0, config)] + [Desc(AUDIO_UNIT, 0, unit)] + ins + outs
                           + [Desc(AVB_INTERFACE, 0, avb)] + clocks + [Desc(CLOCK_DOMAIN, 0, domain)]
                           + [Desc(CONTROL, 0, control)] + [Desc(LOCALE, 0, locale)] + [Desc(STRINGS, 0, strings)])
  {
  }

  lemma {:induction false} PortsAreSingle(ins: seq<Desc>, outs: seq<Desc>, clusters: seq<Desc>, maps: seq<Desc>)
    requires IsGroup(ins, STREAM_PORT_INPUT) && IsGroup(outs, STREAM_PORT_OUTPUT)
    requires IsGroup(clusters, AUDIO_CLUSTER) && IsGroup(maps, AUDIO_MAP)
    ensures SingleIdentity(ins + outs + clusters + maps)
  {
  }

  lemma {:induction false} SingleConcat(a: seq<Desc>, b: seq<Desc>)
    requires SingleIdentity(a) && SingleIdentity(b)
    ensures SingleIdentity(a + b)
  {
  }

  lemma {:induction false} EntityFrontIsSingle(spec: Spec)
    requires EntityDescriptors(spec).Ok?
    ensures SingleIdentity(EntityDescriptors(spec).value)
  {
    var si, so, nClk := spec.streamInputs, spec.streamOutputs, |spec.clockSources|;
    StreamDescsGroup(STREAM_INPUT, si);
    StreamDescsGroup(STREAM_OUTPUT, so);
    FrontIsSingle(EntityBytes(spec.entity), ConfigurationBytes(|si|, |so|, nClk, spec.names.configuration),
                  UnitBytes(spec).value,
                  StreamDescs(STREAM_INPUT, si).value, StreamDescs(STREAM_OUTPUT, so).value,
                  AvbInterfaceBytes(spec.gptp, spec.names.avbInterface), ClockSourceDescs(spec.clockSources),
                  ClockDomainBytes(nClk, spec.names.clockDomain), ControlIdentifyBytes(spec.names.controlIdentify),
                  LocaleBytes(spec.locale), StringsBytes(spec.entity.name, spec.ratesString, spec.entity.vendor));
  }

  lemma {:induction false} PortFrontIsSingle(spec: Spec)
    requires ClustersNamed(spec)
    ensures SingleIdentity(PortDescriptors(spec).value)
  {
    PortsAreSingle(PortDescs(STREAM_PORT_INPUT, spec.portsIn), PortDescs(STREAM_PORT_OUTPUT, spec.portsOut),
                   ClusterDescs(spec), MapDescs(spec.audioMaps));
  }

  lemma {:induction false} IdentityIsSingle(spec: Spec, descs: seq<Desc>)
    requires AllDescriptors(spec) == Ok(descs)
    ensures SingleIdentity(descs)
  {
    EntityFrontIsSingle(spec);
    PortFrontIsSingle(spec);
    SingleConcat(EntityDescriptors(spec).value, PortDescriptors(spec).value);
  }

  /** What the lemmas below need of a built model's descriptors. */
  ghost predicate Single(descs: seq<Desc>, dir: seq<Entry>) {
    && Addressable(dir) && SingleIdentity(descs) && AllNameThemselves(descs)
    && |dir| == |descs| && dir[0] == Entry(ENTITY, 0, 0, 312)
    && forall r :: 0 <= r < |descs| ==> RowDescribes(descs, dir, r)
  }

  ghost predicate RowDescribes(descs: seq<Desc>, dir: seq<Entry>, r: nat)
    requires r < |descs| && r < |dir|
  {
    dir[r].typ == descs[r].typ && dir[r].idx == descs[r].idx && dir[r].length == |descs[r].img|
  }

  lemma {:induction false} BuiltIsSingle(spec: Spec, descs: seq<Desc>)
    requires AllDescriptors(spec) == Ok(descs)
    ensures Single(descs, Directory(descs))
  {
    AppendOrderIsAddressable(spec);
    IdentityIsSingle(spec, descs);
    DescriptorsNameThemselves(spec);
    var a := IdentityDescriptorsLocated(spec);
    SpansHoldImages(descs);
    forall r | 0 <= r < |descs| ensures RowDescribes(descs, Directory(descs), r) {
      assert SpanOf(descs, Rom(descs), Directory(descs), r);
    }
  }

  lemma {:induction false} SingleIsLaidOut(descs: seq<Desc>, dir: seq<Entry>)
    requires Single(descs, dir)
    ensures Layout(dir)
  {
    forall q, r | 0 <= q < r < |dir| ensures KeysDiffer(dir, q, r) {
      if KeyOf(dir[q]) == KeyOf(dir[r]) {
        KeysAreUnique(dir, q, r);
      }
    }
    forall r | 0 <= r < |dir| ensures RowLayout(dir, r) {
      assert RowDescribes(descs, dir, r) && descs[r] in descs;
      if dir[r].typ == ENTITY {
        KeysAreUnique(dir, 0, r);
      }
    }
  }

  // ----- no name moves under baking

  ghost predicate NameKept(rom: Bytes, baked: Bytes, dir: seq<Entry>, r: nat)
    requires r < |dir|
  {
    CarriesName(dir, r) ==> forall s: nat :: s < Stride(dir[r].typ) ==>
      NameField(baked, dir[r].base, dir[r].typ, s) == NameField(rom, dir[r].base, dir[r].typ, s)
  }

  lemma {:induction false} SameSlice(rom: Bytes, baked: Bytes, base: nat, img: Bytes, at: nat, w: nat)
    requires HoldsInBoth(rom, baked, base, img) && at + w <= |img|
    ensures Slice(baked, base + at, base + at + w) == Slice(rom, base + at, base + at + w)
  {
    SliceOfSlice(rom, base, |img|, at, w);
    SliceOfSlice(baked, base, |img|, at, w);
  }

  /** The three name fields of ENTITY at 0 and AVB_INTERFACE at a. */
  ghost predicate IdentityNamesKept(rom: Bytes, baked: Bytes, a: nat) {
    && Slice(baked, a + 4, a + 4 + NAME_BYTES) == Slice(rom, a + 4, a + 4 + NAME_BYTES)
    && Slice(baked, 48, 48 + NAME_BYTES) == Slice(rom, 48, 48 + NAME_BYTES)
    && Slice(baked, 180, 180 + NAME_BYTES) == Slice(rom, 180, 180 + NAME_BYTES)
  }

  /** Identity baking clears every one of them. */
  lemma {:induction false} IdentityKeepsNames(rom: Bytes, a: nat, ident: Ident, baked: Bytes)
    requires 312 <= a && a + 102 <= |rom| && Baked(rom, ReadOverlays(0, a), ident) == Ok(baked)
    ensures IdentityNamesKept(rom, baked, a)
  {
    IdentityKeepsSpan(rom, 0, a, ident, a + 4, a + 4 + NAME_BYTES);
    IdentityKeepsSpan(rom, 0, a, ident, 48, 48 + NAME_BYTES);
    IdentityKeepsSpan(rom, 0, a, ident, 180, 180 + NAME_BYTES);
  }

  lemma {:induction false} OtherNamesKept(descs: seq<Desc>, dir: seq<Entry>, rom: Bytes, baked: Bytes, r: nat)
    requires Single(descs, dir) && AllKept(descs, dir, rom, baked)
    requires r < |dir| && dir[r].typ != ENTITY && dir[r].typ != AVB_INTERFACE
    ensures NameKept(rom, baked, dir, r)
  {
    if CarriesName(dir, r) {
      assert RowDescribes(descs, dir, r) && descs[r] in descs;
      assert KeptAt(dir, rom, baked, descs[r]);
      BaseOfRow(dir, r);
      SameSlice(rom, baked, dir[r].base, descs[r].img, 4, NAME_BYTES);
    }
  }

  lemma {:induction false} IdentityRowKept(descs: seq<Desc>, dir: seq<Entry>, rom: Bytes, baked: Bytes, a: nat, r: nat)
    requires Single(descs, dir) && BaseOf(dir, AVB_INTERFACE, 0) == Some(a) && IdentityNamesKept(rom, baked, a)
    requires r < |dir| && (dir[r].typ == ENTITY || dir[r].typ == AVB_INTERFACE)
    ensures NameKept(rom, baked, dir, r)
  {
    assert RowDescribes(descs, dir, r) && descs[r] in descs;
    if dir[r].typ == ENTITY {
      KeysAreUnique(dir, 0, r);
    } else {
      BaseOfRow(dir, r);
    }
  }

  ghost predicate NamesKept(rom: Bytes, baked: Bytes, dir: seq<Entry>) {
    forall r :: 0 <= r < |dir| ==> NameKept(rom, baked, dir, r)
  }

  lemma {:induction false} NamesDoNotMove(descs: seq<Desc>, e: Bytes, avb: Bytes, a: nat, ident: Ident, baked: Bytes)
    requires Single(descs, Directory(descs)) && IdentityAt(descs, e, avb, a)
    requires Baked(Rom(descs), ReadOverlays(0, a), ident) == Ok(baked)
    ensures NamesKept(Rom(descs), baked, Directory(descs))
  {
    BakingKeepsTheOthers(descs, e, avb, a, ident, baked);
    IdentityKeepsNames(Rom(descs), a, ident, baked);
    forall r | 0 <= r < |descs| ensures NameKept(Rom(descs), baked, Directory(descs), r) {
      if Directory(descs)[r].typ == ENTITY || Directory(descs)[r].typ == AVB_INTERFACE {
        IdentityRowKept(descs, Directory(descs), Rom(descs), baked, a, r);
      } else {
        OtherNamesKept(descs, Directory(descs), Rom(descs), baked, r);
      }
    }
  }

  lemma {:induction false} KeptNamesRead(rom: Bytes, baked: Bytes, dir: seq<Entry>, utf8: Bytes -> bool)
    requires NamesKept(rom, baked, dir)
    ensures NamesAreText(baked, dir, utf8) <==> NamesAreText(rom, dir, utf8)
  {
    forall r | 0 <= r < |dir| ensures RowNamesAreText(baked, dir, utf8, r) <==> RowNamesAreText(rom, dir, utf8, r) {
      assert NameKept(rom, baked, dir, r);
    }
  }

  /** The table of a laid-out directory, from NAMED itself. */
  lemma {:induction false} LaidOutIsDocumentable(rom: Bytes, baked: Bytes, dir: seq<Entry>, overlays: seq<Overlay>,
                                                 named: seq<Named>, ident: Ident, utf8: Bytes -> bool)
    requires Layout(dir) && named == NamedAddresses(dir, 0) && DistinctNames(named)
    requires Baked(rom, overlays, ident) == Ok(baked) && NamesKept(rom, baked, dir)
    ensures Documentable(rom, dir, overlays, named, ident, utf8) <==> NamesAreText(rom, dir, utf8)
  {
    forall q | 0 <= q < |named| ensures Listed(named[q], DirectoryDict(dir)) {
      var r := NamedAreRowNames(dir, named[q]);
      DictSpans(dir, r);
    }
    SlotMapIsSlots(named);
    forall r | 0 <= r < |dir| ensures SlotsOfRow(SlotMap(named), dir, r) {
      RowHasItsSlots(dir, SlotMap(named), r);
    }
    WellNamedIffText(baked, dir, SlotMap(named), utf8);
    KeptNamesRead(rom, baked, dir, utf8);
  }

  /**
   A built model is documented exactly when its identity is resolved and its inline names are text:
   no key repeats, no name is misplaced or missing, no type is mixed, and no name moves under baking.
   */
  lemma {:induction false} BuiltModelsAreDocumentable(m: Model, spec: Spec, ident: Ident, utf8: Bytes -> bool)
    requires IsModelOf(m, spec)
    ensures Documentable(m.rom, m.directory, m.overlays, m.named, ident, utf8)
            <==> (forall o :: o in m.overlays ==> Unbaked(o.src) || Resolved(o, ident)) && NamesAreText(m.rom, m.directory, utf8)
  {
    BakedIffResolved(m.rom, m.overlays, ident);
    if Baked(m.rom, m.overlays, ident).Ok? {
      BakedModelIsDocumentable(m, spec, ident, Baked(m.rom, m.overlays, ident).value, utf8);
    }
  }

  lemma {:induction false} BakedModelIsDocumentable(m: Model, spec: Spec, ident: Ident, baked: Bytes,
                                                    utf8: Bytes -> bool)
    requires IsModelOf(m, spec) && Baked(m.rom, m.overlays, ident) == Ok(baked)
    ensures Documentable(m.rom, m.directory, m.overlays, m.named, ident, utf8) <==> NamesAreText(m.rom, m.directory, utf8)
  {
    var descs, e, avb, a := TakeApart(m, spec);
    BuiltIsSingle(spec, descs);
    SingleIsLaidOut(descs, m.directory);
    NamesDoNotMove(descs, e, avb, a, ident, baked);
    NamedAddressesAreSound(m.directory, 0);
    LaidOutIsDocumentable(m.rom, baked, m.directory, m.overlays, m.named, ident, utf8);
  }

  // ----- strided addressing in the document

  /** Below a row's index, its type's run holds every earlier index. */
  lemma {:induction false} EarlierRow(dir: seq<Entry>, r: nat, j: nat) returns (q: nat)
    requires ZeroBasedAscending(dir) && r < |dir| && j <= dir[r].idx
    ensures q < |dir| && dir[q].typ == dir[r].typ && dir[q].idx == j
  {
    q := r;
    if j < dir[r].idx {
      assert Continues(dir, r);
      q := EarlierRow(dir, r - 1, j);
    }
  }

  /** A built model's directory is laid out, and NAMED lists exactly its names. */
  lemma {:induction false} ModelIsLaidOut(m: Model, spec: Spec)
    requires IsModelOf(m, spec)
    ensures Layout(m.directory) && Addressable(m.directory) && m.named == NamedAddresses(m.directory, 0)
    ensures DistinctNames(m.named) && SlotsOf(SlotMap(m.named), m.named)
  {
    var descs, e, avb, a := TakeApart(m, spec);
    BuiltIsSingle(spec, descs);
    SingleIsLaidOut(descs, m.directory);
    NamedAddressesAreSound(m.directory, 0);
    SlotMapIsSlots(m.named);
  }

  /** A type with one named row is named throughout. */
  lemma {:induction false} NamedTypeIsNamed(dir: seq<Entry>, slots: Slots, p: nat, r: nat)
    requires Layout(dir) && SlotsOf(slots, NamedAddresses(dir, 0)) && slots == SlotMap(NamedAddresses(dir, 0))
    requires p < |dir| && r < |dir| && dir[p].typ == dir[r].typ && KeyOf(dir[r]) in slots
    ensures KeyOf(dir[p]) in slots
  {
    RowHasItsSlots(dir, slots, p);
    RowHasItsSlots(dir, slots, r);
    assert RowLayout(dir, p) && RowLayout(dir, r);
  }

  lemma {:induction false} DocumentIsStrided(dir: seq<Entry>, rom: Bytes, doc: Doc, slots: Slots, q: nat, r: nat)
    requires Layout(dir) && Addressable(dir)
    requires SlotsOf(slots, NamedAddresses(dir, 0)) && slots == SlotMap(NamedAddresses(dir, 0))
    requires IsDocumentOf(doc, rom, dir, slots) && q < |doc.descriptors| && r < |doc.descriptors|
    requires doc.descriptors[q].typ == doc.descriptors[r].typ && doc.descriptors[q].idx == 0
    requires doc.descriptors[r].name.Some?
    ensures var dq, dr := doc.descriptors[q], doc.descriptors[r];
            dq.name.Some? && dr.name.value == dq.name.value + Stride(dr.typ) * dr.idx
  {
    var first: map<DescKey, nat> :| IndexedBy(doc, first);
    var t, n := doc.descriptors[r].typ, doc.descriptors[r].idx;
    assert RowIs(doc, rom, dir, r) && RowIs(doc, rom, dir, q) && RowCoherent(doc, slots, r);
    assert RowIndexed(doc, first, r) && RowIndexed(doc, first, q);
    forall j: nat | j < n + 1 ensures DescKey(t, j) in first {
      var p := EarlierRow(dir, r, j);
      NamedTypeIsNamed(dir, slots, p, r);
      assert RowIs(doc, rom, dir, p) && RowCoherent(doc, slots, p) && RowIndexed(doc, first, p);
    }
    StridedAddressing(doc.names, first, t, n + 1, n);
  }

  /** In a built model's document, row (t, i) starts its names a stride times i behind row (t, 0). */
  lemma {:induction false} RowsAreStrided(m: Model, spec: Spec, rom: Bytes, doc: Doc, q: nat, r: nat)
    requires IsModelOf(m, spec) && IsDocumentOf(doc, rom, m.directory, SlotMap(m.named))
    requires q < |doc.descriptors| && r < |doc.descriptors|
    requires doc.descriptors[q].typ == doc.descriptors[r].typ && doc.descriptors[q].idx == 0
    requires doc.descriptors[r].name.Some?
    ensures var dq, dr := doc.descriptors[q], doc.descriptors[r];
            dq.name.Some? && dr.name.value == dq.name.value + Stride(dr.typ) * dr.idx
  {
    ModelIsLaidOut(m, spec);
    DocumentIsStrided(m.directory, rom, doc, SlotMap(m.named), q, r);
  }
}
