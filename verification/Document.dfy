/**
 A model becomes an image document (avdecc/gen_aemi_image.py, `_descriptor_rows` and
 `model_to_document`).
 */
module Document {
  import opened DescriptorFields
  import opened Identity
  import opened NameSplit
  import opened NameTable
  import opened Octets
  import opened TwoLevel
  import opened Wrappers

  /** One document row: the descriptor's baked bytes, and its first row in the name table. */
  datatype DocDesc = DocDesc(typ: nat, idx: nat, octets: Bytes, name: Option<nat>)

  datatype Doc = Doc(names: seq<Bytes>, descriptors: seq<DocDesc>)

  function KeyOf(e: Entry): DescKey {
    DescKey(e.typ, e.idx)
  }

  function DocRowOf(rom: Bytes, e: Entry, first: map<DescKey, nat>): DocDesc {
    DocDesc(e.typ, e.idx, Slice(rom, e.base, e.base + e.length), if KeyOf(e) in first then Some(first[KeyOf(e)]) else None)
  }

  method DescriptorRows(rom: Bytes, dir: seq<Entry>, first: map<DescKey, nat>) returns (rows: seq<DocDesc>)
    ensures |rows| == |dir| && forall r :: 0 <= r < |dir| ==> rows[r] == DocRowOf(rom, dir[r], first)
  {
    rows := [];
    for r := 0 to |dir|
      invariant |rows| == r && forall q :: 0 <= q < r ==> rows[q] == DocRowOf(rom, dir[q], first)
    {
      rows := rows + [DocRowOf(rom, dir[r], first)];
    }
  }

  // ----- what a document promises

  /** The name field a semantic name of this row is served from. */
  ghost predicate NameServed(doc: Doc, d: DocDesc, s: nat) {
    && d.name.Some? && d.name.value + s < |doc.names|
    && |doc.names[d.name.value + s]| <= NAME_BYTES && 0 !in doc.names[d.name.value + s]
    && NameOffset(d.typ, s) + NAME_BYTES <= |d.octets|
    && Cstr(doc.names[d.name.value + s]) == d.octets[NameOffset(d.typ, s)..NameOffset(d.typ, s) + NAME_BYTES]
  }

  /** A row has names exactly when NAMED lists it, and each re-encodes to the row's own inline octets. */
  ghost predicate RowCoherent(doc: Doc, named: Slots, r: nat)
    requires r < |doc.descriptors|
  {
    var d := doc.descriptors[r];
    && (d.name.Some? <==> DescKey(d.typ, d.idx) in named)
    && (d.name.Some? ==> forall s: nat :: s < Stride(d.typ) ==> NameServed(doc, d, s))
  }

  ghost predicate Owns(doc: Doc, r: nat, p: nat)
    requires r < |doc.descriptors|
  {
    var d := doc.descriptors[r];
    d.name.Some? && d.name.value <= p < d.name.value + Stride(d.typ)
  }

  ghost predicate HasOwner(doc: Doc, p: nat) {
    exists r :: 0 <= r < |doc.descriptors| && Owns(doc, r, p)
  }

  /** Two rows never share a name. */
  ghost predicate NamesApart(doc: Doc, q: nat, r: nat)
    requires q < |doc.descriptors| && r < |doc.descriptors|
  {
    forall p :: !(Owns(doc, q, p) && Owns(doc, r, p))
  }

  /** The rows' first names come from one key-ordered table whose blocks leave no gap. */
  ghost predicate Indexed(doc: Doc) {
    exists first: map<DescKey, nat> :: IndexedBy(doc, first)
  }

  ghost predicate IndexedBy(doc: Doc, first: map<DescKey, nat>) {
    && BlocksTile(doc.names, first)
    && (forall k :: k in first ==> first[k] + Stride(k.typ) <= |doc.names|)
    && (forall r :: 0 <= r < |doc.descriptors| ==> RowIndexed(doc, first, r))
  }

  ghost predicate RowIndexed(doc: Doc, first: map<DescKey, nat>, r: nat)
    requires r < |doc.descriptors|
  {
    var d := doc.descriptors[r];
    d.name == if DescKey(d.typ, d.idx) in first then Some(first[DescKey(d.typ, d.idx)]) else None
  }

  /** The document of these ROM bytes, this directory and these names. */
  ghost predicate IsDocumentOf(doc: Doc, rom: Bytes, dir: seq<Entry>, named: Slots) {
    && |doc.descriptors| == |dir|
    && (forall r :: 0 <= r < |dir| ==> RowIs(doc, rom, dir, r) && RowCoherent(doc, named, r))
    && (forall p :: 0 <= p < |doc.names| ==> HasOwner(doc, p))
    && (forall q, r :: 0 <= q < r < |dir| ==> NamesApart(doc, q, r))
    && Indexed(doc)
  }

  ghost predicate RowIs(doc: Doc, rom: Bytes, dir: seq<Entry>, r: nat)
    requires r < |dir| && r < |doc.descriptors|
  {
    var d, e := doc.descriptors[r], dir[r];
    d.typ == e.typ && d.idx == e.idx && d.octets == Slice(rom, e.base, e.base + e.length)
  }

  // ----- the directory dict

  ghost predicate KeysDiffer(dir: seq<Entry>, q: nat, r: nat)
    requires q < |dir| && r < |dir|
  {
    KeyOf(dir[q]) != KeyOf(dir[r])
  }

  ghost predicate DistinctKeys(dir: seq<Entry>) {
    forall q, r :: 0 <= q < r < |dir| ==> KeysDiffer(dir, q, r)
  }

  ghost predicate DictAt(dict: map<DescKey, Span>, dir: seq<Entry>, r: nat)
    requires r < |dir|
  {
    KeyOf(dir[r]) in dict && dict[KeyOf(dir[r])] == Span(dir[r].base, dir[r].length)
  }

  ghost predicate RowCarries(dir: seq<Entry>, r: nat, k: DescKey)
    requires r < |dir|
  {
    KeyOf(dir[r]) == k
  }

  /** The dict's keys are exactly the directory's. */
  lemma {:induction false} DictKeys(dir: seq<Entry>, k: DescKey)
    ensures k in DirectoryDict(dir) <==> exists r :: 0 <= r < |dir| && RowCarries(dir, r, k)
  {
    if dir != [] {
      var n := |dir| - 1;
      DictKeys(dir[..n], k);
      forall r | 0 <= r < n ensures RowCarries(dir[..n], r, k) <==> RowCarries(dir, r, k) {
      }
      assert RowCarries(dir, n, k) <==> KeyOf(dir[n]) == k;
    }
  }

  /** The dict keeps one span per row exactly when no key repeats. */
  lemma {:induction false} DictSize(dir: seq<Entry>)
    ensures |DirectoryDict(dir)| <= |dir|
    ensures |DirectoryDict(dir)| == |dir| <==> DistinctKeys(dir)
  {
    if dir != [] {
      var n := |dir| - 1;
      var front, e := dir[..n], dir[n];
      DictSize(front);
      DictKeys(front, KeyOf(e));
      DictGrows(DirectoryDict(front), KeyOf(e), Span(e.base, e.length));
      if KeyOf(e) in DirectoryDict(front) {
        var r :| 0 <= r < n && RowCarries(front, r, KeyOf(e));
        assert !KeysDiffer(dir, r, n);
      } else if DistinctKeys(front) {
        forall q, r | 0 <= q < r < |dir| ensures KeysDiffer(dir, q, r) {
          if r < n {
            assert KeysDiffer(front, q, r);
          } else {
            assert !RowCarries(front, q, KeyOf(e));
          }
        }
      } else {
        var q, r :| 0 <= q < r < n && !KeysDiffer(front, q, r);
        assert !KeysDiffer(dir, q, r);
      }
    }
  }

  lemma {:induction false} DictGrows(dict: map<DescKey, Span>, k: DescKey, s: Span)
    ensures |dict[k := s]| == |dict| + if k in dict then 0 else 1
  {
    if k in dict {
      assert dict[k := s].Keys == dict.Keys;
      assert |dict[k := s].Keys| == |dict.Keys|;
    } else {
      assert dict[k := s].Keys == dict.Keys + {k};
    }
  }

  lemma {:induction false} DictSpans(dir: seq<Entry>, r: nat)
    requires DistinctKeys(dir) && r < |dir|
    ensures DictAt(DirectoryDict(dir), dir, r)
  {
    var n := |dir| - 1;
    if r < n {
      forall a, b | 0 <= a < b < n ensures KeysDiffer(dir[..n], a, b) {
        assert KeysDiffer(dir, a, b);
      }
      DictSpans(dir[..n], r);
      assert KeysDiffer(dir, r, n);
    }
  }

  // ----- the document

  /** The blocks of the name table, seen from the document's rows. */
  lemma {:induction false} TableCoheres(rom: Bytes, dir: seq<Entry>, named: Slots, utf8: Bytes -> bool,
                                        names: seq<Bytes>, first: map<DescKey, nat>, doc: Doc)
    requires DistinctKeys(dir) && TableSoFar(rom, DirectoryDict(dir), named, utf8, names, first, DirectoryDict(dir).Keys)
    requires doc.names == names && |doc.descriptors| == |dir|
    requires forall r :: 0 <= r < |dir| ==> doc.descriptors[r] == DocRowOf(rom, dir[r], first)
    ensures IsDocumentOf(doc, rom, dir, named)
  {
    forall r | 0 <= r < |dir| ensures RowIs(doc, rom, dir, r) && RowCoherent(doc, named, r) {
      RowCoheres(rom, dir, named, utf8, names, first, doc, r);
    }
    forall p | 0 <= p < |names| ensures HasOwner(doc, p) {
      assert InSomeBlock(first, p);
      var k :| k in first && first[k] <= p < first[k] + Stride(k.typ);
      DictKeys(dir, k);
      var r :| 0 <= r < |dir| && RowCarries(dir, r, k);
      assert Owns(doc, r, p);
    }
    forall q, r | 0 <= q < r < |dir| ensures NamesApart(doc, q, r) {
      assert KeysDiffer(dir, q, r);
      BlocksApart(names, first, KeyOf(dir[q]), KeyOf(dir[r]));
    }
    RowsAreIndexed(rom, dir, named, utf8, names, first, doc);
  }

  lemma {:induction false} RowsAreIndexed(rom: Bytes, dir: seq<Entry>, named: Slots, utf8: Bytes -> bool,
                                          names: seq<Bytes>, first: map<DescKey, nat>, doc: Doc)
    requires TableSoFar(rom, DirectoryDict(dir), named, utf8, names, first, DirectoryDict(dir).Keys)
    requires doc.names == names && |doc.descriptors| == |dir|
    requires forall r :: 0 <= r < |dir| ==> doc.descriptors[r] == DocRowOf(rom, dir[r], first)
    ensures Indexed(doc)
  {
    forall k | k in first ensures first[k] + Stride(k.typ) <= |names| {
      assert Block(rom, DirectoryDict(dir), utf8, names, first, k);
    }
    forall r | 0 <= r < |dir| ensures RowIndexed(doc, first, r) {
      assert doc.descriptors[r] == DocRowOf(rom, dir[r], first);
    }
    assert IndexedBy(doc, first);
  }

  lemma {:induction false} BlocksApart(names: seq<Bytes>, first: map<DescKey, nat>, a: DescKey, b: DescKey)
    requires BlocksTile(names, first) && a != b
    ensures a in first && b in first ==> first[a] + Stride(a.typ) <= first[b] || first[b] + Stride(b.typ) <= first[a]
  {
    assert KeyBefore(a, b) || KeyBefore(b, a);
  }

  lemma {:induction false} RowCoheres(rom: Bytes, dir: seq<Entry>, named: Slots, utf8: Bytes -> bool, names: seq<Bytes>,
                                      first: map<DescKey, nat>, doc: Doc, r: nat)
    requires DistinctKeys(dir) && TableSoFar(rom, DirectoryDict(dir), named, utf8, names, first, DirectoryDict(dir).Keys)
    requires doc.names == names && r < |doc.descriptors| == |dir| && doc.descriptors[r] == DocRowOf(rom, dir[r], first)
    ensures RowIs(doc, rom, dir, r) && RowCoherent(doc, named, r)
  {
    var d, e, k := doc.descriptors[r], dir[r], KeyOf(dir[r]);
    DictSpans(dir, r);
    assert DictAt(DirectoryDict(dir), dir, r);
    if k in first {
      assert d == DocDesc(e.typ, e.idx, Slice(rom, e.base, e.base + e.length), Some(first[k]));
      BlockIsServed(rom, e, DirectoryDict(dir), named, utf8, first, doc, d);
    }
  }

  lemma {:induction false} BlockIsServed(rom: Bytes, e: Entry, dict: map<DescKey, Span>, named: Slots,
                                         utf8: Bytes -> bool, first: map<DescKey, nat>, doc: Doc, d: DocDesc)
    requires KeyOf(e) in first && KeyOf(e) in dict && KeyOf(e) in named && dict[KeyOf(e)] == Span(e.base, e.length)
    requires KeyWellNamed(rom, dict, named, utf8, KeyOf(e)) && Block(rom, dict, utf8, doc.names, first, KeyOf(e))
    requires d == DocDesc(e.typ, e.idx, Slice(rom, e.base, e.base + e.length), Some(first[KeyOf(e)]))
    ensures forall s: nat :: s < Stride(e.typ) ==> NameServed(doc, d, s)
  {
    forall s: nat | s < Stride(e.typ) ensures NameServed(doc, d, s) {
      assert NameOk(rom, e.base, e.length, e.typ, s, named[KeyOf(e)], utf8);
      NameIsServed(rom, e, utf8, doc, d, s);
    }
  }

  lemma {:induction false} NameIsServed(rom: Bytes, e: Entry, utf8: Bytes -> bool, doc: Doc, d: DocDesc, s: nat)
    requires d.typ == e.typ && d.octets == Slice(rom, e.base, e.base + e.length)
    requires d.name.Some? && d.name.value + s < |doc.names| && NameOffset(e.typ, s) + NAME_BYTES <= e.length
    requires TextFromName(NameField(rom, e.base, e.typ, s), utf8) == Ok(doc.names[d.name.value + s])
    ensures NameServed(doc, d, s)
  {
    InlineName(rom, e.base, e.length, e.typ, s, utf8, doc.names[d.name.value + s]);
  }

  lemma {:induction false} SliceInSlice(rom: Bytes, base: nat, length: nat, at: nat, w: nat)
    requires at + w <= length && 0 < w == |Slice(rom, base + at, base + at + w)|
    ensures at + w <= |Slice(rom, base, base + length)|
    ensures Slice(rom, base, base + length)[at..at + w] == Slice(rom, base + at, base + at + w)
  {
    var cut := Slice(rom, base, base + length);
    assert cut == rom[base..base + |cut|];
    SliceOfSlice(rom, base, |cut|, at, w);
  }

  lemma {:induction false} TextFits(raw: Bytes, utf8: Bytes -> bool, text: Bytes)
    requires TextFromName(raw, utf8) == Ok(text)
    ensures |raw| == NAME_BYTES && Cstr(text) == raw && |text| <= NAME_BYTES && 0 !in text
  {
    TextReencodes(raw, utf8);
  }

  /** A name read from its field re-encodes to the same octets of the descriptor's own slice. */
  lemma {:induction false} InlineName(rom: Bytes, base: nat, length: nat, t: nat, s: nat, utf8: Bytes -> bool,
                                      text: Bytes)
    requires NameOffset(t, s) + NAME_BYTES <= length && TextFromName(NameField(rom, base, t, s), utf8) == Ok(text)
    ensures NameOffset(t, s) + NAME_BYTES <= |Slice(rom, base, base + length)|
    ensures Cstr(text) == Slice(rom, base, base + length)[NameOffset(t, s)..NameOffset(t, s) + NAME_BYTES]
    ensures |text| <= NAME_BYTES && 0 !in text
  {
    TextFits(NameField(rom, base, t, s), utf8, text);
    SliceInSlice(rom, base, length, NameOffset(t, s), NAME_BYTES);
  }

  /** What the join refuses. */
  ghost predicate Documentable(rom: Bytes, dir: seq<Entry>, overlays: seq<Overlay>, named: seq<Named>, ident: Ident,
                               utf8: Bytes -> bool) {
    && Baked(rom, overlays, ident).Ok?
    && DistinctKeys(dir) && DistinctNames(named) && AllListed(named, DirectoryDict(dir))
    && WellNamed(Baked(rom, overlays, ident).value, DirectoryDict(dir), SlotMap(named), utf8)
  }

  /**
   Refused exactly for an unresolved identity span, a repeated key, a misplaced or missing name, or
   a name that is no text; accepted, every name is coherent with the bytes its own row serves.
   */
  method ModelToDocument(rom: Bytes, dir: seq<Entry>, overlays: seq<Overlay>, named: seq<Named>, ident: Ident,
                         utf8: Bytes -> bool)
    returns (res: Result<Doc>)
    ensures res.Ok? <==> Documentable(rom, dir, overlays, named, ident, utf8)
    ensures res.Ok? ==> IsDocumentOf(res.value, Baked(rom, overlays, ident).value, dir, SlotMap(named))
  {
    var baked := ApplyIdentity(rom, overlays, ident);
    if baked.Err? {
      return Err;
    }
    DictSize(dir);
    var directory := DescriptorDirectory(dir);
    if directory.Err? {
      return Err;
    }
    var slots := NamedSlots(named, directory.value);
    if slots.Err? {
      return Err;
    }
    var table := BuildNameTable(baked.value, directory.value, slots.value, utf8);
    if table.Err? {
      return Err;
    }
    var (names, first) := table.value;
    var rows := DescriptorRows(baked.value, dir, first);
    var doc := Doc(names, rows);
    TableCoheres(baked.value, dir, slots.value, utf8, names, first, doc);
    return Ok(doc);
  }
}
