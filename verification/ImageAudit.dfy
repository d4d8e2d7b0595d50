/**
 The independent image decoder (scripts/audit_pp_descriptors.py, `packed_rows` and
 `assert_packed_bytes`). The packer itself is not part of this model: the image is any byte string.
 */
module ImageAudit {
  import opened DescriptorFields
  import opened Octets
  import opened Wrappers

  /** One 16-octet row of the index map: a run of descriptors at a stride. */
  datatype IndexRow = IndexRow(cfg: nat, dtype: nat, count: nat, length: nat, base: nat, name: nat, stride: nat)

  /** `struct.unpack_from(">HHHHIHH", blob, at)`, which refuses a truncated row. */
  function RowAt(blob: Bytes, at: nat): Result<IndexRow> {
    if at + 16 > |blob| then Err
    else Ok(IndexRow(U16(blob, at), U16(blob, at + 2), U16(blob, at + 4), U16(blob, at + 6),
                     U32(blob, at + 8), U16(blob, at + 12), U16(blob, at + 14)))
  }

  /** Where one descriptor is claimed to sit, and the key it is claimed to have. */
  datatype Slot = Slot(cfg: nat, dtype: nat, index: nat, offset: nat, length: nat, stride: nat, name: nat)

  /** The slots of one run, numbered on from the runs before it. */
  function RunSlots(r: IndexRow, first: nat, n: nat): seq<Slot> {
    seq(n, i requires 0 <= i < n => Slot(r.cfg, r.dtype, first + i, r.base + i * r.stride, r.length, r.stride, r.name))
  }

  /** How many slots so far belong to this configuration and type. */
  function Count(slots: seq<Slot>, cfg: nat, dtype: nat): nat {
    if slots == [] then 0
    else
      var last := slots[|slots| - 1];
      Count(slots[..|slots| - 1], cfg, dtype) + if last.cfg == cfg && last.dtype == dtype then 1 else 0
  }

  /** The slots the first n index rows announce. */
  function Slots(blob: Bytes, table: nat, n: nat): Result<seq<Slot>> {
    if n == 0 then Ok([])
    else
      var before :- Slots(blob, table, n - 1);
      var r :- RowAt(blob, table + 16 * (n - 1));
      Ok(before + RunSlots(r, Count(before, r.cfg, r.dtype), r.count))
  }

  lemma {:induction false} RunGrows(slots: seq<Slot>, r: IndexRow, n: nat, cfg: nat, dtype: nat)
    ensures Count(slots + RunSlots(r, Count(slots, r.cfg, r.dtype), n), cfg, dtype) ==
            Count(slots, cfg, dtype) + if r.cfg == cfg && r.dtype == dtype then n else 0
  {
    var first := Count(slots, r.cfg, r.dtype);
    if n == 0 {
      assert slots + RunSlots(r, first, 0) == slots;
    } else {
      var all := slots + RunSlots(r, first, n);
      RunGrows(slots, r, n - 1, cfg, dtype);
      assert all[..|all| - 1] == slots + RunSlots(r, first, n - 1);
    }
  }

  /** The slot's index is the number of slots of its key before it. */
  ghost predicate Numbered(slots: seq<Slot>) {
    forall j :: 0 <= j < |slots| ==> NumberedAt(slots, j)
  }

  ghost predicate NumberedAt(slots: seq<Slot>, j: nat)
    requires j < |slots|
  {
    slots[j].index == Count(slots[..j], slots[j].cfg, slots[j].dtype)
  }

  /** Repeated runs of one key, whatever their lengths, carry on the same numbering. */
  lemma {:induction false} SlotsAreNumbered(blob: Bytes, table: nat, n: nat)
    requires Slots(blob, table, n).Ok?
    ensures Numbered(Slots(blob, table, n).value)
  {
    if n > 0 {
      SlotsAreNumbered(blob, table, n - 1);
      var before := Slots(blob, table, n - 1).value;
      var r := RowAt(blob, table + 16 * (n - 1)).value;
      var first := Count(before, r.cfg, r.dtype);
      var all := Slots(blob, table, n).value;
      forall j | 0 <= j < |all| ensures NumberedAt(all, j) {
        if j < |before| {
          assert all[..j] == before[..j] && NumberedAt(before, j);
        } else {
          RunGrows(before, r, j - |before|, r.cfg, r.dtype);
          assert all[..j] == before + RunSlots(r, first, j - |before|);
        }
      }
    }
  }

  lemma {:induction false} CountGrows(slots: seq<Slot>, i: nat, j: nat, cfg: nat, dtype: nat)
    requires i <= j <= |slots|
    ensures Count(slots[..i], cfg, dtype) <= Count(slots[..j], cfg, dtype)
  {
    if i < j {
      CountGrows(slots, i, j - 1, cfg, dtype);
      assert slots[..j][..j - 1] == slots[..j - 1];
    }
  }

  /** Each key's indices are exactly 0 to n - 1, once each: distinct places never repeat one. */
  lemma {:induction false} NumberedIsInjective(slots: seq<Slot>, i: nat, j: nat)
    requires Numbered(slots) && i < j < |slots|
    ensures !(slots[i].cfg == slots[j].cfg && slots[i].dtype == slots[j].dtype && slots[i].index == slots[j].index)
  {
    assert NumberedAt(slots, i) && NumberedAt(slots, j);
    CountGrows(slots, i + 1, j, slots[i].cfg, slots[i].dtype);
    assert slots[..i + 1][..i] == slots[..i];
  }

  /** Every index below the key's count has its place. */
  lemma {:induction false} NumberedIsOnto(slots: seq<Slot>, cfg: nat, dtype: nat, x: nat) returns (j: nat)
    requires Numbered(slots) && x < Count(slots, cfg, dtype)
    ensures j < |slots| && slots[j].cfg == cfg && slots[j].dtype == dtype && slots[j].index == x
  {
    var n := |slots| - 1;
    if x < Count(slots[..n], cfg, dtype) {
      forall i | 0 <= i < n ensures NumberedAt(slots[..n], i) {
        assert NumberedAt(slots, i) && slots[..n][..i] == slots[..i];
      }
      j := NumberedIsOnto(slots[..n], cfg, dtype, x);
    } else {
      assert NumberedAt(slots, n);
      j := n;
    }
  }

  // ----- decoding

  datatype Row = Row(slot: Slot, fields: Fields)

  ghost predicate BodyNamesKey(blob: Bytes, s: Slot) {
    && s.offset + s.length <= |blob| && s.length >= 4
    && U16(blob, s.offset) == s.dtype && U16(blob, s.offset + 2) == s.index
  }

  /** What the decoder demands of one slot, and what it then reports of it. */
  ghost predicate Decodes(blob: Bytes, s: Slot, fields: Fields) {
    BodyNamesKey(blob, s) && DescriptorFieldsOf(s.dtype, blob[s.offset..s.offset + s.length]) == Ok(fields)
  }

  ghost predicate Decodable(blob: Bytes, s: Slot) {
    BodyNamesKey(blob, s) && DescriptorFieldsOf(s.dtype, blob[s.offset..s.offset + s.length]).Ok?
  }

  const MAGIC: Bytes := [0x41, 0x45, 0x4D, 0x49]

  predicate HeaderOk(blob: Bytes) {
    && MAGIC <= blob && |blob| >= 32 && U16(blob, 4) == 1 && U32(blob, 20) == |blob|
    && (U32(blob, 0) + U32(blob, 4) + U32(blob, 8) + U32(blob, 12) + U32(blob, 16) + U32(blob, 20)
        + U32(blob, 24) + U32(blob, 28)) % 0x1_0000_0000 == 0xFFFF_FFFF
  }

  method DecodeSlot(blob: Bytes, s: Slot) returns (res: Result<Row>)
    ensures res.Ok? <==> Decodable(blob, s)
    ensures res.Ok? ==> res.value.slot == s && Decodes(blob, s, res.value.fields)
  {
    var data := Slice(blob, s.offset, s.offset + s.length);
    if |data| != s.length || |data| < 4 {
      return Err;
    }
    assert data[0] == blob[s.offset] && data[1] == blob[s.offset + 1];
    assert data[2] == blob[s.offset + 2] && data[3] == blob[s.offset + 3];
    if U16(data, 0) != s.dtype || U16(data, 2) != s.index {
      return Err;
    }
    var fields := DescriptorFieldsOf(s.dtype, data);
    assert data == blob[s.offset..s.offset + s.length];
    return if fields.Ok? then Ok(Row(s, fields.value)) else Err;
  }

  /** `next_index` after the slots so far: a key's count, absent meaning none. */
  ghost predicate NextIndex(next: map<(nat, nat), nat>, slots: seq<Slot>) {
    forall cfg: nat, dtype: nat :: (if (cfg, dtype) in next then next[(cfg, dtype)] else 0) == Count(slots, cfg, dtype)
  }

  ghost predicate RowsOf(blob: Bytes, rows: seq<Row>, slots: seq<Slot>) {
    |rows| == |slots| && forall j :: 0 <= j < |rows| ==> RowOf(blob, rows, slots, j)
  }

  ghost predicate RowOf(blob: Bytes, rows: seq<Row>, slots: seq<Slot>, j: nat)
    requires j < |rows| && j < |slots|
  {
    rows[j].slot == slots[j] && Decodes(blob, slots[j], rows[j].fields)
  }

  ghost predicate AllDecodable(blob: Bytes, slots: seq<Slot>) {
    forall j :: 0 <= j < |slots| ==> DecodableAt(blob, slots, j)
  }

  ghost predicate DecodableAt(blob: Bytes, slots: seq<Slot>, j: nat)
    requires j < |slots|
  {
    Decodable(blob, slots[j])
  }

  lemma {:induction false} SlotsPrefix(blob: Bytes, table: nat, k: nat, n: nat)
    requires k <= n && Slots(blob, table, n).Ok?
    ensures Slots(blob, table, k).Ok? && Slots(blob, table, k).value <= Slots(blob, table, n).value
    decreases n
  {
    if k < n {
      SlotsPrefix(blob, table, k, n - 1);
    }
  }

  ghost predicate ImageDecodes(blob: Bytes) {
    HeaderOk(blob) && TableDecodes(blob, U32(blob, 12), U16(blob, 8))
  }

  ghost predicate TableDecodes(blob: Bytes, table: nat, n: nat) {
    Slots(blob, table, n).Ok? && AllDecodable(blob, Slots(blob, table, n).value)
  }

  /** The next row adds its run, or ends every longer table with it. */
  lemma {:induction false} RowAdds(blob: Bytes, table: nat, row: nat, n: nat)
    requires row < n && Slots(blob, table, row).Ok?
    ensures var r := RowAt(blob, table + 16 * row);
            if r.Err? then Slots(blob, table, n) == Err
            else
              var before := Slots(blob, table, row).value;
              var run := RunSlots(r.value, Count(before, r.value.cfg, r.value.dtype), r.value.count);
              && Slots(blob, table, row + 1) == Ok(before + run)
              && (Slots(blob, table, n).Ok? ==> before + run <= Slots(blob, table, n).value)
  {
    if Slots(blob, table, n).Ok? {
      SlotsPrefix(blob, table, row + 1, n);
    }
  }

  lemma {:induction false} DecodableRun(blob: Bytes, before: seq<Slot>, run: seq<Slot>, all: seq<Slot>)
    requires AllDecodable(blob, before)
    ensures AllDecodable(blob, before + run) <==> AllDecodable(blob, run)
    ensures before + run <= all && AllDecodable(blob, all) ==> AllDecodable(blob, run)
  {
    var both := before + run;
    if AllDecodable(blob, run) {
      forall j | 0 <= j < |both| ensures DecodableAt(blob, both, j) {
        if j < |before| {
          assert DecodableAt(blob, before, j);
        } else {
          assert DecodableAt(blob, run, j - |before|);
        }
      }
    }
    forall j | 0 <= j < |run| ensures AllDecodable(blob, both) ==> DecodableAt(blob, run, j) {
      assert both[|before| + j] == run[j];
      assert AllDecodable(blob, both) ==> DecodableAt(blob, both, |before| + j);
    }
    if both <= all && AllDecodable(blob, all) {
      forall j | 0 <= j < |run| ensures DecodableAt(blob, run, j) {
        assert all[|before| + j] == both[|before| + j];
        assert DecodableAt(blob, all, |before| + j);
      }
    }
  }

  lemma {:induction false} NextIndexStep(next: map<(nat, nat), nat>, before: seq<Slot>, r: IndexRow)
    requires NextIndex(next, before)
    ensures var first := Count(before, r.cfg, r.dtype);
            NextIndex(next[(r.cfg, r.dtype) := first + r.count], before + RunSlots(r, first, r.count))
  {
    forall cfg: nat, dtype: nat
      ensures Count(before + RunSlots(r, Count(before, r.cfg, r.dtype), r.count), cfg, dtype) ==
              Count(before, cfg, dtype) + if r.cfg == cfg && r.dtype == dtype then r.count else 0 {
      RunGrows(before, r, r.count, cfg, dtype);
    }
  }

  /** One run: every slot of it decodes, or the image is refused. */
  method DecodeRun(blob: Bytes, r: IndexRow, first: nat) returns (res: Result<seq<Row>>)
    ensures res.Ok? <==> AllDecodable(blob, RunSlots(r, first, r.count))
    ensures res.Ok? ==> RowsOf(blob, res.value, RunSlots(r, first, r.count))
  {
    var rows: seq<Row> := [];
    ghost var run := RunSlots(r, first, r.count);
    for i := 0 to r.count
      invariant |rows| == i
      invariant forall j :: 0 <= j < i ==> RowOf(blob, rows, run, j)
      invariant forall j :: 0 <= j < i ==> DecodableAt(blob, run, j)
    {
      ghost var before := rows;
      var s := Slot(r.cfg, r.dtype, first + i, r.base + i * r.stride, r.length, r.stride, r.name);
      assert s == run[i];
      var row := DecodeSlot(blob, s);
      if row.Err? {
        assert !DecodableAt(blob, run, i);
        return Err;
      }
      rows := rows + [row.value];
      forall j | 0 <= j <= i ensures RowOf(blob, rows, run, j) {
        if j < i {
          assert RowOf(blob, before, run, j);
        }
      }
    }
    return Ok(rows);
  }

  lemma {:induction false} RowsConcat(blob: Bytes, rows: seq<Row>, slots: seq<Slot>, more: seq<Row>, run: seq<Slot>)
    requires RowsOf(blob, rows, slots) && RowsOf(blob, more, run)
    ensures RowsOf(blob, rows + more, slots + run)
  {
    forall j | 0 <= j < |rows + more| ensures RowOf(blob, rows + more, slots + run, j) {
      if j < |rows| {
        assert RowOf(blob, rows, slots, j);
      } else {
        assert RowOf(blob, more, run, j - |rows|);
      }
    }
  }

  method DecodeTable(blob: Bytes, table: nat, n: nat) returns (res: Result<seq<Row>>)
    ensures res.Ok? <==> TableDecodes(blob, table, n)
    ensures res.Ok? ==> RowsOf(blob, res.value, Slots(blob, table, n).value) && Numbered(Slots(blob, table, n).value)
  {
    var rows: seq<Row>, next: map<(nat, nat), nat> := [], map[];
    for row := 0 to n
      invariant TableDecodes(blob, table, row)
      invariant NextIndex(next, Slots(blob, table, row).value)
      invariant RowsOf(blob, rows, Slots(blob, table, row).value)
    {
      ghost var before := Slots(blob, table, row).value;
      RowAdds(blob, table, row, n);
      var parsed := RowAt(blob, table + 16 * row);
      if parsed.Err? {
        return Err;
      }
      var r := parsed.value;
      var key := (r.cfg, r.dtype);
      var first := if key in next then next[key] else 0;
      ghost var slots := RunSlots(r, first, r.count);
      DecodableRun(blob, before, slots, if Slots(blob, table, n).Ok? then Slots(blob, table, n).value else []);
      var run := DecodeRun(blob, r, first);
      if run.Err? {
        return Err;
      }
      RowsConcat(blob, rows, before, run.value, slots);
      NextIndexStep(next, before, r);
      rows := rows + run.value;
      next := next[key := first + r.count];
    }
    SlotsAreNumbered(blob, table, n);
    return Ok(rows);
  }

  /**
   Accepted exactly when the header holds and every announced slot lies in the image, names its
   own key and decodes; the rows are then those slots, in order, with their fields.
   */
  method PackedRows(blob: Bytes) returns (res: Result<seq<Row>>)
    ensures res.Ok? <==> ImageDecodes(blob)
    ensures res.Ok? ==> RowsOf(blob, res.value, Slots(blob, U32(blob, 12), U16(blob, 8)).value)
                        && Numbered(Slots(blob, U32(blob, 12), U16(blob, 8)).value)
  {
    if !HeaderOk(blob) {
      return Err;
    }
    res := DecodeTable(blob, U32(blob, 12), U16(blob, 8));
  }

  // ----- against the document

  datatype DocRow = DocRow(typ: nat, idx: nat, octets: Bytes)

  /** `document_row`: the first row with this type and index, or StopIteration. */
  function DocumentRow(doc: seq<DocRow>, dtype: nat, index: nat): Option<Bytes> {
    if doc == [] then None
    else if doc[0].typ == dtype && doc[0].idx == index then Some(doc[0].octets)
    else DocumentRow(doc[1..], dtype, index)
  }

  /** The packed bytes of this slot are those of its document row. */
  ghost predicate PackedAsDocumented(doc: seq<DocRow>, blob: Bytes, s: Slot) {
    DocumentRow(doc, s.dtype, s.index) == Some(Slice(blob, s.offset, s.offset + s.length))
  }

  ghost predicate AllDocumented(doc: seq<DocRow>, blob: Bytes, slots: seq<Slot>) {
    forall j :: 0 <= j < |slots| ==> PackedAsDocumented(doc, blob, slots[j])
  }

  ghost predicate TableDocumented(doc: seq<DocRow>, blob: Bytes, table: nat, n: nat) {
    Slots(blob, table, n).Ok? && AllDocumented(doc, blob, Slots(blob, table, n).value)
  }

  lemma {:induction false} DocumentedRun(doc: seq<DocRow>, blob: Bytes, before: seq<Slot>, run: seq<Slot>,
                                         all: seq<Slot>)
    requires AllDocumented(doc, blob, before)
    ensures AllDocumented(doc, blob, before + run) <==> AllDocumented(doc, blob, run)
    ensures before + run <= all && AllDocumented(doc, blob, all) ==> AllDocumented(doc, blob, run)
  {
    var both := before + run;
    assert forall j :: 0 <= j < |run| ==> both[|before| + j] == run[j];
    if before + run <= all {
      assert forall j :: 0 <= j < |run| ==> all[|before| + j] == run[j];
    }
  }

  method CompareRun(doc: seq<DocRow>, blob: Bytes, r: IndexRow, first: nat) returns (pass: bool)
    ensures pass <==> AllDocumented(doc, blob, RunSlots(r, first, r.count))
  {
    ghost var run := RunSlots(r, first, r.count);
    for i := 0 to r.count
      invariant forall j :: 0 <= j < i ==> PackedAsDocumented(doc, blob, run[j])
    {
      var expected := DocumentRow(doc, r.dtype, first + i);
      var offset := r.base + i * r.stride;
      assert run[i] == Slot(r.cfg, r.dtype, first + i, offset, r.length, r.stride, r.name);
      if expected.None? || Slice(blob, offset, offset + r.length) != expected.value {
        assert !PackedAsDocumented(doc, blob, run[i]);
        return false;
      }
    }
    return true;
  }

  /** Passes exactly when every announced slot holds its document row's bytes, unnormalised. */
  method AssertPackedBytes(doc: seq<DocRow>, blob: Bytes) returns (pass: bool)
    ensures pass <==> |blob| >= 10 && (U16(blob, 8) == 0 ||
                                       (|blob| >= 16 && TableDocumented(doc, blob, U32(blob, 12), U16(blob, 8))))
  {
    if |blob| < 10 {
      return false;
    }
    var n := U16(blob, 8);
    if n == 0 {
      return true; // the table offset is read only once there is a row
    }
    if |blob| < 16 {
      return false;
    }
    pass := CompareTable(doc, blob, U32(blob, 12), n);
  }

  method CompareTable(doc: seq<DocRow>, blob: Bytes, table: nat, n: nat) returns (pass: bool)
    ensures pass <==> TableDocumented(doc, blob, table, n)
  {
    var seen: map<(nat, nat), nat> := map[];
    for row := 0 to n
      invariant TableDocumented(doc, blob, table, row)
      invariant NextIndex(seen, Slots(blob, table, row).value)
    {
      ghost var before := Slots(blob, table, row).value;
      RowAdds(blob, table, row, n);
      var parsed := RowAt(blob, table + 16 * row);
      if parsed.Err? {
        return false;
      }
      var r := parsed.value;
      var key := (r.cfg, r.dtype);
      var first := if key in seen then seen[key] else 0;
      ghost var all := if Slots(blob, table, n).Ok? then Slots(blob, table, n).value else [];
      DocumentedRun(doc, blob, before, RunSlots(r, first, r.count), all);
      var same := CompareRun(doc, blob, r, first);
      if !same {
        return false;
      }
      NextIndexStep(seen, before, r);
      seen := seen[key := first + r.count];
    }
    return true;
  }

  /** With both accepting, the decoded fields are those of the document row's own bytes. */
  lemma {:induction false} AuditReadsTheDocument(doc: seq<DocRow>, blob: Bytes, rows: seq<Row>, slots: seq<Slot>,
                                                 j: nat)
    requires RowsOf(blob, rows, slots) && AllDocumented(doc, blob, slots) && j < |rows|
    ensures var s := rows[j].slot;
            && DocumentRow(doc, s.dtype, s.index).Some?
            && DescriptorFieldsOf(s.dtype, DocumentRow(doc, s.dtype, s.index).value) == Ok(rows[j].fields)
  {
    assert PackedAsDocumented(doc, blob, slots[j]) && RowOf(blob, rows, slots, j);
    var s := slots[j];
    assert Slice(blob, s.offset, s.offset + s.length) == blob[s.offset..s.offset + s.length];
  }
}
