/**
 The packed image and its decoder in terms of raw octets: where an index row's fields sit, where a
 run's descriptors are, what the header checksum detects, and which octets each decoded field is.
 */
module ImageLaws {
  import opened DescriptorFields
  import opened ImageAudit
  import opened Layouts
  import opened Octets
  import opened Wrappers

  // ----- the index table

  /** Sixteen octets: configuration, type, count, length, a 32-bit base, name and stride. */
  ghost predicate IndexRowLaid(blob: Bytes, at: nat, r: IndexRow) {
    && r.cfg < 65536 && r.dtype < 65536 && r.count < 65536 && r.length < 65536 && r.name < 65536 && r.stride < 65536
    && Has16(blob, at, r.cfg) && Has16(blob, at + 2, r.dtype) && Has16(blob, at + 4, r.count)
    && Has16(blob, at + 6, r.length) && Has32(blob, at + 8, r.base)
    && Has16(blob, at + 12, r.name) && Has16(blob, at + 14, r.stride)
  }

  lemma {:induction false} Read16(b: Bytes, at: nat, v: nat)
    requires Has16(b, at, v) && v < 65536
    ensures U16(b, at) == v
  {
  }

  lemma {:induction false} Read32(b: Bytes, at: nat, v: nat)
    requires Has32(b, at, v)
    ensures U32(b, at) == v
  {
    Read16(b, at, v / 65536);
    assert U16(b, at + 2) == v % 65536;
  }

  lemma {:induction false} LowHalf(v: nat)
    ensures v / 65536 % 65536 == v % 0x1_0000_0000 / 65536
    ensures v % 65536 == v % 0x1_0000_0000 % 65536
  {
  }

  lemma {:induction false} HighHalf(v: nat)
    requires v < 0x1_0000_0000_0000_0000
    ensures v / 0x1_0000_0000_0000 == v / 0x1_0000_0000 / 65536 && v / 0x1_0000_0000 < 0x1_0000_0000
    ensures v == v / 0x1_0000_0000 * 0x1_0000_0000 + v % 0x1_0000_0000
  {
  }

  lemma {:induction false} Read64(b: Bytes, at: nat, v: nat)
    requires Has64(b, at, v) && v < 0x1_0000_0000_0000_0000
    ensures U64(b, at) == v
  {
    var hi, lo := v / 0x1_0000_0000, v % 0x1_0000_0000;
    HighHalf(v);
    LowHalf(v);
    assert Has16(b, at + 4, lo / 65536) && Has16(b, at + 6, lo);
    Read32(b, at, hi);
    Read32(b, at + 4, lo);
  }

  /** A row is read exactly where it is laid, and refused exactly when truncated. */
  lemma {:induction false} RowAtReads(blob: Bytes, at: nat, r: IndexRow)
    ensures IndexRowLaid(blob, at, r) ==> RowAt(blob, at) == Ok(r)
    ensures RowAt(blob, at).Err? <==> at + 16 > |blob|
  {
    if IndexRowLaid(blob, at, r) {
      Read16(blob, at, r.cfg);
      Read16(blob, at + 2, r.dtype);
      Read16(blob, at + 4, r.count);
      Read16(blob, at + 6, r.length);
      Read32(blob, at + 8, r.base);
      Read16(blob, at + 12, r.name);
      Read16(blob, at + 14, r.stride);
    }
  }

  /** The table holds these rows, sixteen octets apart. */
  ghost predicate TableLaid(blob: Bytes, table: nat, runs: seq<IndexRow>) {
    forall k :: 0 <= k < |runs| ==> IndexRowLaid(blob, table + 16 * k, runs[k])
  }

  /** How many descriptors the runs announce. */
  function Announced(runs: seq<IndexRow>): nat {
    if runs == [] then 0 else Announced(runs[..|runs| - 1]) + runs[|runs| - 1].count
  }

  /** The slot at j is descriptor i of run k: at the run's base plus i strides, behind the earlier runs' slots. */
  ghost predicate SlotOfRun(slots: seq<Slot>, runs: seq<IndexRow>, j: nat, k: nat, i: nat)
    requires j < |slots| && k < |runs|
  {
    && i < runs[k].count && j == Announced(runs[..k]) + i
    && slots[j].cfg == runs[k].cfg && slots[j].dtype == runs[k].dtype
    && slots[j].offset == runs[k].base + i * runs[k].stride && slots[j].length == runs[k].length
    && slots[j].stride == runs[k].stride && slots[j].name == runs[k].name
  }

  lemma {:induction false} SlotsOfRuns(blob: Bytes, table: nat, runs: seq<IndexRow>)
    requires TableLaid(blob, table, runs)
    ensures Slots(blob, table, |runs|).Ok? && |Slots(blob, table, |runs|).value| == Announced(runs)
  {
    if runs != [] {
      var n := |runs| - 1;
      assert forall k :: 0 <= k < n ==> runs[..n][k] == runs[k];
      SlotsOfRuns(blob, table, runs[..n]);
      RowAtReads(blob, table + 16 * n, runs[n]);
    }
  }

  /** Every slot is one descriptor of one run, at its own place in the image. */
  lemma {:induction false} SlotIsOfARun(blob: Bytes, table: nat, runs: seq<IndexRow>, j: nat) returns (k: nat, i: nat)
    requires TableLaid(blob, table, runs) && j < Announced(runs)
    ensures Slots(blob, table, |runs|).Ok? && j < |Slots(blob, table, |runs|).value| && k < |runs|
    ensures SlotOfRun(Slots(blob, table, |runs|).value, runs, j, k, i)
  {
    var n := |runs| - 1;
    var front := runs[..n];
    assert forall q :: 0 <= q < n ==> front[q] == runs[q];
    SlotsOfRuns(blob, table, runs);
    SlotsOfRuns(blob, table, front);
    RowAtReads(blob, table + 16 * n, runs[n]);
    if j < Announced(front) {
      k, i := SlotIsOfARun(blob, table, front, j);
      assert front[..k] == runs[..k];
    } else {
      k, i := n, j - Announced(front);
    }
  }

  // ----- the header checksum

  /** The eight 32-bit words of the header. */
  function Word(blob: Bytes, w: nat): nat
    requires |blob| >= 32 && w < 8
  {
    U32(blob, 4 * w)
  }

  function WordSum(blob: Bytes): nat
    requires |blob| >= 32
  {
    Word(blob, 0) + Word(blob, 1) + Word(blob, 2) + Word(blob, 3) + Word(blob, 4) + Word(blob, 5) + Word(blob, 6) + Word(blob, 7)
  }

  lemma {:induction false} HeaderSum(blob: Bytes)
    requires HeaderOk(blob)
    ensures WordSum(blob) % 0x1_0000_0000 == 0xFFFF_FFFF
  {
    HeaderWordsSum(blob);
  }

  lemma {:induction false} NearSumsDiffer(x: nat, y: nat)
    requires x < y < x + 0x1_0000_0000
    ensures x % 0x1_0000_0000 != y % 0x1_0000_0000
  {
  }

  ghost predicate OpensAsImage(blob: Bytes) {
    |blob| >= 4 && blob[0] == 65 && blob[1] == 69 && blob[2] == 77 && blob[3] == 73
  }

  lemma {:induction false} MagicExactly(blob: Bytes)
    ensures MAGIC <= blob <==> OpensAsImage(blob)
  {
  }

  lemma {:induction false} LengthExactly(blob: Bytes)
    requires |blob| >= 32
    ensures U32(blob, 20) == |blob| <==> Has32(blob, 20, |blob|)
    ensures U16(blob, 4) == 1 <==> Has16(blob, 4, 1)
  {
    if Has32(blob, 20, |blob|) {
      Read32(blob, 20, |blob|);
    }
  }

  /** The header: "AEMI", version 1, the image's own length, and eight words that sum to all ones. */
  lemma {:induction false} HeaderExactly(blob: Bytes)
    ensures HeaderOk(blob) <==>
            && |blob| >= 32 && OpensAsImage(blob) && Has16(blob, 4, 1) && Has32(blob, 20, |blob|)
            && WordSum(blob) % 0x1_0000_0000 == 0xFFFF_FFFF
  {
    MagicExactly(blob);
    if |blob| >= 32 {
      LengthExactly(blob);
      HeaderWordsSum(blob);
    }
  }

  lemma {:induction false} HeaderWordsSum(blob: Bytes)
    requires |blob| >= 32
    ensures WordSum(blob) == U32(blob, 0) + U32(blob, 4) + U32(blob, 8) + U32(blob, 12) + U32(blob, 16) + U32(blob, 20)
                             + U32(blob, 24) + U32(blob, 28)
  {
    assert Word(blob, 0) == U32(blob, 0) && Word(blob, 1) == U32(blob, 4);
    assert Word(blob, 2) == U32(blob, 8) && Word(blob, 3) == U32(blob, 12);
    assert Word(blob, 4) == U32(blob, 16) && Word(blob, 5) == U32(blob, 20);
    assert Word(blob, 6) == U32(blob, 24) && Word(blob, 7) == U32(blob, 28);
  }

  ghost predicate OneChanges(a: Bytes, b: Bytes, w: nat)
    requires |a| >= 32 && |b| >= 32 && w < 8
  {
    Word(a, w) != Word(b, w) && forall v :: 0 <= v < 8 && v != w ==> Word(a, v) == Word(b, v)
  }

  lemma {:induction false} OneChangeMovesTheSum(a: Bytes, b: Bytes, w: nat)
    requires |a| >= 32 && |b| >= 32 && w < 8 && OneChanges(a, b, w)
    ensures WordSum(a) - WordSum(b) == Word(a, w) - Word(b, w)
  {
  }

  /** The checksum detects any change that is confined to one word of the header. */
  lemma {:induction false} OneChangedWordIsRefused(a: Bytes, b: Bytes, w: nat)
    requires HeaderOk(a) && |b| >= 32 && w < 8 && OneChanges(a, b, w)
    ensures !HeaderOk(b)
  {
    HeaderSum(a);
    OneChangeMovesTheSum(a, b, w);
    if WordSum(a) < WordSum(b) {
      NearSumsDiffer(WordSum(a), WordSum(b));
    } else {
      NearSumsDiffer(WordSum(b), WordSum(a));
    }
    if HeaderOk(b) {
      HeaderSum(b);
      assert false;
    }
  }

  // ----- the decoder's fields, for any values

  /** A stream's fields, wherever their values come from: redundancy and timing are three fields, not one. */
  lemma {:induction false} StreamReads(b: Bytes, flags: nat, current: nat, offset: nat, count: nat, buffer: nat,
                                       redundant: nat, redundancy: nat, timing: nat)
    requires flags < 65536 && offset < 65536 && count < 65536 && redundant < 65536 && redundancy < 65536 && timing < 65536
    requires Has16(b, 72, flags) && Has64(b, 74, current) && current < 0x1_0000_0000_0000_0000
    requires Has16(b, 82, offset) && Has16(b, 84, count) && Has32(b, 128, buffer)
    requires Has16(b, 132, redundant) && Has16(b, 134, redundancy) && Has16(b, 136, timing)
    ensures StreamOf(b).Ok? ==>
              var f := StreamOf(b).value;
              && f.offset == offset && f.count == count && f.flags == flags && f.currentFormat == current
              && f.bufferNs == buffer && f.redundantOffset == redundant && f.redundantCount == redundancy
              && f.timing == timing && |f.formats| == count
  {
    Read16(b, 72, flags);
    Read64(b, 74, current);
    Read16(b, 82, offset);
    Read16(b, 84, count);
    Read32(b, 128, buffer);
    Read16(b, 132, redundant);
    Read16(b, 134, redundancy);
    Read16(b, 136, timing);
  }

  /** An AUDIO_UNIT's port runs, count and base apart. */
  lemma {:induction false} UnitPortsRead(b: Bytes, nIn: nat, baseIn: nat, nOut: nat, baseOut: nat)
    requires nIn < 65536 && baseIn < 65536 && nOut < 65536 && baseOut < 65536
    requires Has16(b, 72, nIn) && Has16(b, 74, baseIn) && Has16(b, 76, nOut) && Has16(b, 78, baseOut)
    ensures AudioUnitOf(b).Ok? ==>
              AudioUnitOf(b).value.inputPorts == (nIn, baseIn) && AudioUnitOf(b).value.outputPorts == (nOut, baseOut)
  {
    Read16(b, 72, nIn);
    Read16(b, 74, baseIn);
    Read16(b, 76, nOut);
    Read16(b, 78, baseOut);
  }

  /** An AVB_INTERFACE's port number and control count. */
  lemma {:induction false} InterfaceReads(b: Bytes, port: nat, controls: nat)
    requires port < 65536 && controls < 65536 && Has16(b, 96, port) && Has16(b, 98, controls)
    ensures AvbInterfaceOf(b) == Ok(AvbInterfaceFields(port, b[70..76], b[78..86], controls))
  {
    Read16(b, 96, port);
    Read16(b, 98, controls);
  }

  /** A CONTROL's type, reset time and values offset. */
  lemma {:induction false} ControlReads(b: Bytes, controlType: nat, reset: nat, offset: nat)
    requires controlType < 0x1_0000_0000_0000_0000 && offset < 65536
    requires Has64(b, 82, controlType) && Has32(b, 90, reset) && Has16(b, 94, offset)
    ensures ControlOf(b) == Ok(ControlFields(controlType, reset, offset))
  {
    Read64(b, 82, controlType);
    Read32(b, 90, reset);
    Read16(b, 94, offset);
  }
}
