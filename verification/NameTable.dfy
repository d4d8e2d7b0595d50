/**
 The flat name table of the descriptor image (avdecc/gen_aemi_image.py, `_descriptor_directory`,
 `_named_slots`, `_text_from_name` and `_name_table`).

 A name is kept as its encoded bytes; `utf8` is the decoder's validity test. NAME_BYTES and the
 image format's own name encoding are taken to be 64 octets, zero-padded, as `Cstr` writes them.
 */
module NameTable {
  import opened Descriptors
  import opened DescriptorFields
  import opened NameSplit
  import opened Octets
  import opened Sequences
  import opened TwoLevel
  import opened Wrappers

  /** (type, index) of a descriptor. */
  datatype DescKey = DescKey(typ: nat, idx: nat)

  /** Its bytes in the ROM. */
  datatype Span = Span(base: nat, length: nat)

  // ----- one name

  /** Where partitioning at the first NUL splits. */
  function FirstNul(raw: Bytes): (n: nat)
    ensures n <= |raw| && 0 !in raw[..n] && (n < |raw| ==> raw[n] == 0)
  {
    if raw == [] || raw[0] == 0 then 0
    else
      var n := 1 + FirstNul(raw[1..]);
      assert raw[..n] == [raw[0]] + raw[1..][..n - 1];
      n
  }

  function TextFromName(raw: Bytes, utf8: Bytes -> bool): Result<Bytes> {
    var n := FirstNul(raw);
    if |raw| != NAME_BYTES then Err
    else if exists i :: n <= i < |raw| && raw[i] != 0 then Err
    else if !utf8(raw[..n]) || Cstr(raw[..n]) != raw then Err
    else Ok(raw[..n])
  }

  /** A name survives the inline field exactly when it fits, holds no NUL and decodes. */
  lemma {:induction false} NameRoundTrip(s: Bytes, utf8: Bytes -> bool)
    ensures TextFromName(Cstr(s), utf8) == Ok(s) <==> |s| <= NAME_BYTES && 0 !in s && utf8(s)
  {
    var raw := Cstr(s);
    var n := FirstNul(raw);
    if |s| <= NAME_BYTES && 0 !in s {
      assert forall i :: 0 <= i < |s| ==> raw[i] == s[i] && s[i] in s;
      assert |s| < NAME_BYTES ==> raw[|s|] == 0;
      assert n == |s|;
      assert raw[..n] == s;
    }
  }

  /** Whatever text is accepted re-encodes to the very octets it was read from. */
  lemma {:induction false} TextReencodes(raw: Bytes, utf8: Bytes -> bool)
    requires TextFromName(raw, utf8).Ok?
    ensures Cstr(TextFromName(raw, utf8).value) == raw
  {
  }

  // ----- the dicts

  /** {(type, index): (base, length)}; a repeated key keeps its last span. */
  function DirectoryDict(dir: seq<Entry>): map<DescKey, Span> {
    if dir == [] then map[]
    else
      var e := dir[|dir| - 1];
      DirectoryDict(dir[..|dir| - 1])[DescKey(e.typ, e.idx) := Span(e.base, e.length)]
  }

  function DescriptorDirectory(dir: seq<Entry>): Result<map<DescKey, Span>> {
    if |DirectoryDict(dir)| == |dir| then Ok(DirectoryDict(dir)) else Err
  }

  type Slots = map<DescKey, map<nat, nat>>

  ghost predicate SlotsOf(slots: Slots, named: seq<Named>) {
    && (forall e :: e in named ==> Slotted(slots, e))
    && (forall k, s :: k in slots && s in slots[k] ==> Named(k.typ, k.idx, s, slots[k][s]) in named)
  }

  ghost predicate Slotted(slots: Slots, e: Named) {
    var k := DescKey(e.typ, e.idx);
    k in slots && e.nidx in slots[k] && slots[k][e.nidx] == e.addr
  }

  function AddSlot(slots: Slots, e: Named): Slots {
    var k := DescKey(e.typ, e.idx);
    slots[k := (if k in slots then slots[k] else map[])[e.nidx := e.addr]]
  }

  /** {(type, index): {semantic: address}} */
  function SlotMap(named: seq<Named>): Slots {
    if named == [] then map[] else AddSlot(SlotMap(named[..|named| - 1]), named[|named| - 1])
  }

  lemma {:induction false} SlotMapStep(named: seq<Named>, r: nat)
    requires r < |named|
    ensures SlotMap(named[..r + 1]) == AddSlot(SlotMap(named[..r]), named[r])
    ensures named[..r + 1] == named[..r] + [named[r]]
  {
    assert named[..r + 1][..r] == named[..r];
  }

  /** No descriptor is listed without a name. */
  lemma {:induction false} NoEmptySlots(named: seq<Named>, k: DescKey) returns (s: nat)
    requires k in SlotMap(named)
    ensures s in SlotMap(named)[k]
  {
    var e := named[|named| - 1];
    if k == DescKey(e.typ, e.idx) {
      s := e.nidx;
    } else {
      s := NoEmptySlots(named[..|named| - 1], k);
    }
  }

  lemma {:induction false} SlotStep(slots: Slots, named: seq<Named>, e: Named)
    requires SlotsOf(slots, named) && DistinctNames(named)
    ensures var k := DescKey(e.typ, e.idx);
            if k in slots && e.nidx in slots[k] then !DistinctNames(named + [e])
            else DistinctNames(named + [e]) && SlotsOf(AddSlot(slots, e), named + [e])
  {
    var k, next, grown := DescKey(e.typ, e.idx), named + [e], AddSlot(slots, e);
    if k in slots && e.nidx in slots[k] {
      var q :| 0 <= q < |named| && named[q] == Named(e.typ, e.idx, e.nidx, slots[k][e.nidx]);
      assert !Differ(next[q], next[|named|]);
    } else {
      forall i, j | 0 <= i < j < |next| ensures Differ(next[i], next[j]) {
        if j < |named| {
          assert Differ(named[i], named[j]);
        } else {
          assert Slotted(slots, named[i]);
        }
      }
      forall f | f in next ensures Slotted(grown, f) {
        assert f == e || Slotted(slots, f);
        assert f.K() == e.K() ==> f == e;
      }
    }
  }

  lemma {:induction false} DistinctPrefix(named: seq<Named>, r: nat)
    requires r <= |named| && DistinctNames(named)
    ensures DistinctNames(named[..r])
  {
    forall i, j | 0 <= i < j < r ensures Differ(named[..r][i], named[..r][j]) {
      assert Differ(named[i], named[j]);
    }
  }

  lemma {:induction false} SlotMapIsSlots(named: seq<Named>)
    requires DistinctNames(named)
    ensures SlotsOf(SlotMap(named), named)
  {
    if named != [] {
      var n := |named| - 1;
      DistinctPrefix(named, n);
      SlotMapIsSlots(named[..n]);
      assert named == named[..n] + [named[n]];
      SlotStep(SlotMap(named[..n]), named[..n], named[n]);
    }
  }

  /** Every name has its descriptor. */
  ghost predicate AllListed(named: seq<Named>, directory: map<DescKey, Span>) {
    forall q :: 0 <= q < |named| ==> Listed(named[q], directory)
  }

  ghost predicate Listed(e: Named, directory: map<DescKey, Span>) {
    DescKey(e.typ, e.idx) in directory
  }

  lemma {:induction false} ListedAppend(named: seq<Named>, e: Named, directory: map<DescKey, Span>)
    requires AllListed(named, directory) && Listed(e, directory)
    ensures AllListed(named + [e], directory)
  {
    var next := named + [e];
    forall q | 0 <= q < |next| ensures Listed(next[q], directory) {
      if q < |named| {
        assert Listed(named[q], directory);
      }
    }
  }

  ghost predicate SlotsSoFar(slots: Slots, named: seq<Named>, directory: map<DescKey, Span>) {
    slots == SlotMap(named) && SlotsOf(slots, named) && DistinctNames(named) && AllListed(named, directory)
  }

  /** The next name joins its descriptor's slots, or the whole table is refused. */
  lemma {:induction false} SlotsAdvance(slots: Slots, named: seq<Named>, directory: map<DescKey, Span>, r: nat)
    requires r < |named| && SlotsSoFar(slots, named[..r], directory)
    ensures var e := named[r];
            var k := DescKey(e.typ, e.idx);
            if k !in directory || (k in slots && e.nidx in slots[k])
            then !(DistinctNames(named) && AllListed(named, directory))
            else SlotsSoFar(AddSlot(slots, e), named[..r + 1], directory)
  {
    var e := named[r];
    SlotMapStep(named, r);
    SlotStep(slots, named[..r], e);
    if DistinctNames(named) {
      DistinctPrefix(named, r + 1);
    }
    if AllListed(named, directory) {
      assert Listed(named[r], directory);
    }
    if Listed(e, directory) {
      ListedAppend(named[..r], e, directory);
    }
  }

  /** Refused exactly for a name without a descriptor or a repeated (type, index, semantic). */
  method NamedSlots(named: seq<Named>, directory: map<DescKey, Span>) returns (res: Result<Slots>)
    ensures res.Ok? <==> DistinctNames(named) && AllListed(named, directory)
    ensures res.Ok? ==> res.value == SlotMap(named) && SlotsOf(res.value, named)
  {
    var slots: Slots := map[];
    for r := 0 to |named|
      invariant SlotsSoFar(slots, named[..r], directory)
    {
      var e := named[r];
      var key := DescKey(e.typ, e.idx);
      SlotsAdvance(slots, named, directory, r);
      if key !in directory {
        return Err;
      }
      var here := if key in slots then slots[key] else map[];
      if e.nidx in here {
        return Err;
      }
      slots := AddSlot(slots, e);
    }
    assert named[..|named|] == named;
    return Ok(slots);
  }

  // ----- the flat table

  /** An ENTITY carries two names, every other named descriptor one. */
  function Stride(t: nat): nat {
    if t == ENTITY then 2 else 1
  }

  function NameOffset(t: nat, semantic: nat): nat {
    if t != ENTITY then 4 else if semantic == 0 then 48 else 180
  }

  /** The ROM field one semantic name of a descriptor is read from. */
  function NameField(rom: Bytes, base: nat, t: nat, semantic: nat): Bytes {
    Slice(rom, base + NameOffset(t, semantic), base + NameOffset(t, semantic) + NAME_BYTES)
  }

  /** What the table demands of one named descriptor. */
  ghost predicate KeyWellNamed(rom: Bytes, directory: map<DescKey, Span>, named: Slots, utf8: Bytes -> bool, k: DescKey)
    requires k in directory && k in named
  {
    && HasExpected(named[k], k.typ)
    && forall s: nat :: s < Stride(k.typ) ==> NameOk(rom, directory[k].base, directory[k].length, k.typ, s, named[k], utf8)
  }

  /** `sorted(slots) == expected` */
  predicate HasExpected(slots: map<nat, nat>, t: nat) {
    (forall s | s in slots :: s < Stride(t)) && (forall s: nat | s < Stride(t) :: s in slots)
  }

  predicate NameOk(rom: Bytes, base: nat, length: nat, t: nat, s: nat, slots: map<nat, nat>, utf8: Bytes -> bool) {
    && s in slots && slots[s] == base + NameOffset(t, s)
    && NameOffset(t, s) + NAME_BYTES <= length
    && TextFromName(NameField(rom, base, t, s), utf8).Ok?
  }

  ghost predicate TypeNotMixed(directory: map<DescKey, Span>, named: Slots, t: nat) {
    forall i, j :: DescKey(t, i) in directory && DescKey(t, j) in directory && DescKey(t, i) in named ==> DescKey(t, j) in named
  }

  ghost predicate WellNamed(rom: Bytes, directory: map<DescKey, Span>, named: Slots, utf8: Bytes -> bool) {
    && (forall t: nat :: TypeNotMixed(directory, named, t))
    && forall k :: k in directory && k in named ==> KeyWellNamed(rom, directory, named, utf8, k)
  }

  /** What the table says: each named key's block of names, in its own place and read from its own field. */
  ghost predicate Block(rom: Bytes, directory: map<DescKey, Span>, utf8: Bytes -> bool, names: seq<Bytes>,
                        first: map<DescKey, nat>, k: DescKey)
    requires k in first && k in directory
  {
    && first[k] + Stride(k.typ) <= |names|
    && forall s: nat :: s < Stride(k.typ) ==>
         TextFromName(NameField(rom, directory[k].base, k.typ, s), utf8) == Ok(names[first[k] + s])
  }

  ghost predicate KeyBefore(a: DescKey, b: DescKey) {
    a.typ < b.typ || (a.typ == b.typ && a.idx < b.idx)
  }

  /** The blocks of the keys in `first` tile the table in key order. */
  ghost predicate BlocksTile(names: seq<Bytes>, first: map<DescKey, nat>) {
    && (forall a, b :: a in first && b in first && KeyBefore(a, b) ==> first[a] + Stride(a.typ) <= first[b])
    && (forall p :: 0 <= p < |names| ==> InSomeBlock(first, p))
  }

  ghost predicate InSomeBlock(first: map<DescKey, nat>, p: nat) {
    exists k :: k in first && first[k] <= p < first[k] + Stride(k.typ)
  }

  function TypesOf(directory: map<DescKey, Span>): set<nat> {
    set k | k in directory :: k.typ
  }

  function IndicesOf(directory: map<DescKey, Span>, t: nat): set<nat> {
    set k | k in directory && k.typ == t :: k.idx
  }

  /** One semantic name, read from the address its slot gives. */
  method ReadName(rom: Bytes, base: nat, length: nat, t: nat, s: nat, slots: map<nat, nat>, utf8: Bytes -> bool)
    returns (text: Result<Bytes>)
    requires s in slots
    ensures text.Ok? <==> NameOk(rom, base, length, t, s, slots, utf8)
    ensures text.Ok? ==> text == TextFromName(NameField(rom, base, t, s), utf8)
  {
    var addr := slots[s];
    if addr != base + NameOffset(t, s) || addr < base || addr + NAME_BYTES > base + length {
      return Err;
    }
    text := TextFromName(Slice(rom, addr, addr + NAME_BYTES), utf8);
  }

  /** The names of one descriptor, appended to the table. */
  method AppendNames(rom: Bytes, base: nat, length: nat, t: nat, slots: map<nat, nat>, utf8: Bytes -> bool,
                     names: seq<Bytes>)
    returns (res: Result<seq<Bytes>>)
    requires HasExpected(slots, t)
    ensures res.Ok? <==> forall s: nat :: s < Stride(t) ==> NameOk(rom, base, length, t, s, slots, utf8)
    ensures res.Ok? ==> names <= res.value && |res.value| == |names| + Stride(t)
    ensures res.Ok? ==> forall s: nat :: s < Stride(t) ==>
              TextFromName(NameField(rom, base, t, s), utf8) == Ok(res.value[|names| + s])
  {
    var out := names;
    for s := 0 to Stride(t)
      invariant names <= out && |out| == |names| + s
      invariant forall q: nat :: q < s ==> NameOk(rom, base, length, t, q, slots, utf8)
      invariant forall q: nat :: q < s ==> TextFromName(NameField(rom, base, t, q), utf8) == Ok(out[|names| + q])
    {
      var text := ReadName(rom, base, length, t, s, slots, utf8);
      if text.Err? {
        return Err;
      }
      out := out + [text.value];
    }
    return Ok(out);
  }

  /** One named descriptor, refused exactly when it is not well named. */
  method NameKey(rom: Bytes, directory: map<DescKey, Span>, named: Slots, utf8: Bytes -> bool, key: DescKey,
                 names: seq<Bytes>)
    returns (res: Result<seq<Bytes>>)
    requires key in directory && key in named
    ensures res.Ok? <==> KeyWellNamed(rom, directory, named, utf8, key)
    ensures res.Ok? ==> Extends(rom, directory, utf8, key, names, res.value)
  {
    if !HasExpected(named[key], key.typ) {
      return Err;
    }
    res := AppendNames(rom, directory[key].base, directory[key].length, key.typ, named[key], utf8, names);
  }

  /** `more` is `names` with this descriptor's block appended. */
  ghost predicate Extends(rom: Bytes, directory: map<DescKey, Span>, utf8: Bytes -> bool, key: DescKey,
                          names: seq<Bytes>, more: seq<Bytes>)
    requires key in directory
  {
    && names <= more && |more| == |names| + Stride(key.typ)
    && forall s: nat :: s < Stride(key.typ) ==>
         TextFromName(NameField(rom, directory[key].base, key.typ, s), utf8) == Ok(more[|names| + s])
  }

  /** The table so far: blocks for exactly the named keys of `done`, all of them well named. */
  ghost predicate TableSoFar(rom: Bytes, directory: map<DescKey, Span>, named: Slots, utf8: Bytes -> bool,
                             names: seq<Bytes>, first: map<DescKey, nat>, done: set<DescKey>) {
    && done <= directory.Keys
    && (forall k :: k in first <==> k in done && k in named)
    && (forall k :: k in first ==> KeyWellNamed(rom, directory, named, utf8, k))
    && (forall k :: k in first ==> Block(rom, directory, utf8, names, first, k))
    && BlocksTile(names, first)
  }

  lemma {:induction false} BlockStep(rom: Bytes, directory: map<DescKey, Span>, named: Slots, utf8: Bytes -> bool,
                                     names: seq<Bytes>, first: map<DescKey, nat>, done: set<DescKey>, key: DescKey,
                                     more: seq<Bytes>)
    requires TableSoFar(rom, directory, named, utf8, names, first, done)
    requires key in directory && key in named && key !in done && forall k :: k in done ==> KeyBefore(k, key)
    requires KeyWellNamed(rom, directory, named, utf8, key)
    requires Extends(rom, directory, utf8, key, names, more)
    ensures TableSoFar(rom, directory, named, utf8, more, first[key := |names|], done + {key})
  {
    var grown := first[key := |names|];
    forall k | k in grown ensures Block(rom, directory, utf8, more, grown, k) && KeyWellNamed(rom, directory, named, utf8, k) {
      if k != key {
        assert Block(rom, directory, utf8, names, first, k);
      }
    }
    forall a, b | a in grown && b in grown && KeyBefore(a, b) ensures grown[a] + Stride(a.typ) <= grown[b] {
      if b == key {
        assert Block(rom, directory, utf8, names, first, a);
      }
    }
    forall p | 0 <= p < |more| ensures InSomeBlock(grown, p) {
      if p < |names| {
        assert InSomeBlock(first, p);
        var k :| k in first && first[k] <= p < first[k] + Stride(k.typ);
        assert grown[k] == first[k];
      } else {
        assert grown[key] <= p < grown[key] + Stride(key.typ);
      }
    }
  }

  function KeysOf(directory: map<DescKey, Span>, t: nat): set<DescKey> {
    set k | k in directory && k.typ == t
  }

  ghost predicate TypeWellNamed(rom: Bytes, directory: map<DescKey, Span>, named: Slots, utf8: Bytes -> bool, t: nat) {
    && TypeNotMixed(directory, named, t)
    && forall k :: k in KeysOf(directory, t) && k in named ==> KeyWellNamed(rom, directory, named, utf8, k)
  }

  /** `any(present) and not all(present)` */
  predicate Mixed(named: Slots, t: nat, indices: seq<nat>) {
    (exists i :: i in indices && DescKey(t, i) in named) && (exists i :: i in indices && DescKey(t, i) !in named)
  }

  lemma {:induction false} MixedMeaning(directory: map<DescKey, Span>, named: Slots, t: nat, indices: seq<nat>)
    requires forall i :: i in indices <==> i in IndicesOf(directory, t)
    ensures Mixed(named, t, indices) <==> !TypeNotMixed(directory, named, t)
    ensures KeysOf(directory, t) == Visited({}, t, indices)
  {
    assert forall i: nat :: i in indices <==> DescKey(t, i) in directory;
  }

  function Visited(done: set<DescKey>, t: nat, indices: seq<nat>): set<DescKey> {
    done + set i | i in indices :: DescKey(t, i)
  }

  lemma {:induction false} VisitedStep(done: set<DescKey>, t: nat, indices: seq<nat>, b: nat)
    requires Ascending(indices) && b < |indices| && forall k :: k in done ==> k.typ < t
    ensures var key := DescKey(t, indices[b]);
            && key !in Visited(done, t, indices[..b])
            && Visited(done, t, indices[..b + 1]) == Visited(done, t, indices[..b]) + {key}
            && forall k :: k in Visited(done, t, indices[..b]) ==> KeyBefore(k, key)
  {
    AscendingPrefix(indices, b);
  }

  lemma {:induction false} SkipStep(rom: Bytes, directory: map<DescKey, Span>, named: Slots, utf8: Bytes -> bool,
                                    names: seq<Bytes>, first: map<DescKey, nat>, done: set<DescKey>, key: DescKey)
    requires TableSoFar(rom, directory, named, utf8, names, first, done)
    requires key in directory && key !in named
    ensures TableSoFar(rom, directory, named, utf8, names, first, done + {key})
  {
  }

  lemma {:induction false} TypeFinished(rom: Bytes, directory: map<DescKey, Span>, named: Slots, utf8: Bytes -> bool,
                                        names: seq<Bytes>, first: map<DescKey, nat>, done: set<DescKey>, t: nat)
    requires TableSoFar(rom, directory, named, utf8, names, first, done)
    requires KeysOf(directory, t) <= done && TypeNotMixed(directory, named, t)
    ensures TypeWellNamed(rom, directory, named, utf8, t)
  {
  }

  /** The keys of the types visited before t. */
  function KeysBelow(directory: map<DescKey, Span>, t: nat): (ks: set<DescKey>)
    ensures forall k :: k in ks ==> k.typ < t
  {
    set k | k in directory && k.typ < t
  }

  function KeysIn(directory: map<DescKey, Span>, types: seq<nat>): set<DescKey> {
    set k | k in directory && k.typ in types
  }

  lemma {:induction false} EarlierTypes(directory: map<DescKey, Span>, types: seq<nat>, a: nat)
    requires Ascending(types) && a < |types| && forall t :: t in types <==> t in TypesOf(directory)
    ensures KeysBelow(directory, types[a]) == KeysIn(directory, types[..a])
    ensures KeysIn(directory, types[..a + 1]) == KeysIn(directory, types[..a]) + KeysOf(directory, types[a])
  {
    AscendingPrefix(types, a);
    forall k | k in directory ensures k.typ < types[a] <==> k.typ in types[..a] {
      assert k.typ in TypesOf(directory);
      var i :| 0 <= i < |types| && types[i] == k.typ;
      if i < a {
        assert types[..a][i] == k.typ;
      }
    }
  }

  /** One type's descriptors, in index order. */
  method NameType(rom: Bytes, directory: map<DescKey, Span>, named: Slots, utf8: Bytes -> bool, t: nat,
                  names0: seq<Bytes>, first0: map<DescKey, nat>)
    returns (res: Result<(seq<Bytes>, map<DescKey, nat>)>)
    requires TableSoFar(rom, directory, named, utf8, names0, first0, KeysBelow(directory, t))
    ensures res.Ok? <==> TypeWellNamed(rom, directory, named, utf8, t)
    ensures res.Ok? ==> TableSoFar(rom, directory, named, utf8, res.value.0, res.value.1,
                                   KeysBelow(directory, t) + KeysOf(directory, t))
  {
    ghost var done0 := KeysBelow(directory, t);
    var names: seq<Bytes>, first: map<DescKey, nat> := names0, first0;
    var indices := Sorted(IndicesOf(directory, t));
    MixedMeaning(directory, named, t, indices);
    if Mixed(named, t, indices) {
      return Err;
    }
    assert Visited(done0, t, indices[..0]) == done0;
    for b := 0 to |indices|
      invariant TableSoFar(rom, directory, named, utf8, names, first, Visited(done0, t, indices[..b]))
    {
      var key := DescKey(t, indices[b]);
      assert indices[b] in indices && key in KeysOf(directory, t);
      VisitedStep(done0, t, indices, b);
      ghost var done := Visited(done0, t, indices[..b]);
      if key !in named {
        SkipStep(rom, directory, named, utf8, names, first, done, key);
        continue;
      }
      var more := NameKey(rom, directory, named, utf8, key, names);
      if more.Err? {
        return Err;
      }
      BlockStep(rom, directory, named, utf8, names, first, done, key, more.value);
      first := first[key := |names|];
      names := more.value;
    }
    assert indices[..|indices|] == indices;
    assert Visited(done0, t, indices) == done0 + KeysOf(directory, t);
    TypeFinished(rom, directory, named, utf8, names, first, done0 + KeysOf(directory, t), t);
    return Ok((names, first));
  }

  ghost predicate TypesWellNamed(rom: Bytes, directory: map<DescKey, Span>, named: Slots, utf8: Bytes -> bool,
                                 types: seq<nat>)
  {
    forall t :: t in types ==> TypeWellNamed(rom, directory, named, utf8, t)
  }

  /** One badly named type spoils the table. */
  lemma {:induction false} MisnamedType(rom: Bytes, directory: map<DescKey, Span>, named: Slots, utf8: Bytes -> bool,
                                        t: nat)
    ensures WellNamed(rom, directory, named, utf8) ==> TypeWellNamed(rom, directory, named, utf8, t)
  {
  }

  /**
   The table is refused exactly when a type mixes named and unnamed descriptors or a named
   descriptor is not well named; accepted, its blocks tile it in key order.
   */
  method BuildNameTable(rom: Bytes, directory: map<DescKey, Span>, named: Slots, utf8: Bytes -> bool)
    returns (res: Result<(seq<Bytes>, map<DescKey, nat>)>)
    ensures res.Ok? <==> WellNamed(rom, directory, named, utf8)
    ensures res.Ok? ==> TableSoFar(rom, directory, named, utf8, res.value.0, res.value.1, directory.Keys)
  {
    var names: seq<Bytes>, first: map<DescKey, nat> := [], map[];
    var types := Sorted(TypesOf(directory));
    for a := 0 to |types|
      invariant TableSoFar(rom, directory, named, utf8, names, first, KeysIn(directory, types[..a]))
      invariant TypesWellNamed(rom, directory, named, utf8, types[..a])
    {
      AscendingPrefix(types, a);
      EarlierTypes(directory, types, a);
      var table := NameType(rom, directory, named, utf8, types[a], names, first);
      if table.Err? {
        MisnamedType(rom, directory, named, utf8, types[a]);
        return Err;
      }
      names, first := table.value.0, table.value.1;
    }
    assert types[..|types|] == types;
    AllTypesNamed(rom, directory, named, utf8, types);
    assert KeysIn(directory, types) == directory.Keys;
    return Ok((names, first));
  }

  lemma {:induction false} AllTypesNamed(rom: Bytes, directory: map<DescKey, Span>, named: Slots, utf8: Bytes -> bool,
                                         types: seq<nat>)
    requires TypesWellNamed(rom, directory, named, utf8, types)
    requires forall t :: t in types <==> t in TypesOf(directory)
    ensures WellNamed(rom, directory, named, utf8) && forall k :: k in directory ==> k.typ in types
  {
    forall k | k in directory ensures k.typ in types && k in KeysOf(directory, k.typ) {
      assert k.typ in TypesOf(directory);
    }
    forall t: nat ensures TypeNotMixed(directory, named, t) {
      if t in types {
        assert TypeWellNamed(rom, directory, named, utf8, t);
      }
    }
  }

  // ----- what the table means

  /** Every name is in the table exactly once: two (key, semantic) pairs never share a place, and no place is spare. */
  lemma {:induction false} EachNameOnce(names: seq<Bytes>, first: map<DescKey, nat>, a: DescKey, s: nat, b: DescKey,
                                        u: nat)
    requires BlocksTile(names, first) && a in first && b in first && s < Stride(a.typ) && u < Stride(b.typ)
    ensures first[a] + s == first[b] + u <==> a == b && s == u
  {
    if a != b {
      assert KeyBefore(a, b) || KeyBefore(b, a);
    }
  }

  /** No key lies between two neighbours, so no block starts between theirs. */
  lemma {:induction false} OutsideTheGap(names: seq<Bytes>, first: map<DescKey, nat>, t: nat, i: nat, k: DescKey,
                                         p: nat)
    requires BlocksTile(names, first) && DescKey(t, i) in first && DescKey(t, i + 1) in first && k in first
    ensures first[k] <= p < first[k] + Stride(k.typ) ==>
              p < first[DescKey(t, i)] + Stride(t) || first[DescKey(t, i + 1)] <= p
  {
    var a, b := DescKey(t, i), DescKey(t, i + 1);
    assert KeyBefore(k, a) || k == a || k == b || KeyBefore(b, k);
  }

  lemma {:induction false} NextBlock(names: seq<Bytes>, first: map<DescKey, nat>, t: nat, i: nat)
    requires BlocksTile(names, first)
    requires DescKey(t, i) in first && DescKey(t, i + 1) in first && first[DescKey(t, i + 1)] <= |names|
    ensures first[DescKey(t, i + 1)] == first[DescKey(t, i)] + Stride(t)
  {
    var a, b := DescKey(t, i), DescKey(t, i + 1);
    assert KeyBefore(a, b);
    var p := first[a] + Stride(t);
    if p < |names| {
      assert InSomeBlock(first, p);
      var k :| k in first && first[k] <= p < first[k] + Stride(k.typ);
      OutsideTheGap(names, first, t, i, k, p);
    }
  }

  lemma {:induction false} StrideSteps(t: nat, i: nat)
    requires i > 0
    ensures Stride(t) * i == Stride(t) * (i - 1) + Stride(t)
  {
  }

  /** Along a zero-based, fully named type the blocks advance by the type's stride. */
  lemma {:induction false} StridedAddressing(names: seq<Bytes>, first: map<DescKey, nat>, t: nat, n: nat, i: nat)
    requires BlocksTile(names, first)
    requires forall k :: k in first ==> first[k] + Stride(k.typ) <= |names|
    requires forall j: nat :: j < n ==> DescKey(t, j) in first
    requires i < n
    ensures first[DescKey(t, i)] == first[DescKey(t, 0)] + Stride(t) * i
  {
    if i > 0 {
      StridedAddressing(names, first, t, n, i - 1);
      NextBlock(names, first, t, i - 1);
      StrideSteps(t, i);
    }
  }
}
