/**
 The SET/GET_NAME table split into a structural rule and explicit exceptions
 (avdecc/aem_assemble.py, `named_structure` and `check_named`).
 */
module NameSplit {
  import opened Bits
  import opened Sequences
  import opened TwoLevel
  import opened Wrappers

  /** (type, index, name_index) and the ROM address of that object_name. */
  datatype Named = Named(typ: nat, idx: nat, nidx: nat, addr: nat) {
    function K(): Key { Key(typ, idx, nidx) }
  }

  datatype Key = Key(typ: nat, idx: nat, nidx: nat)

  datatype NameAnswer = At(addr: nat) | NoName | NameCrash

  // ----- the flat table and the structural lookup

  /** The dict comprehension over NAMED: a repeated key keeps its last address. */
  function Want(named: seq<Named>): map<Key, nat> {
    if named == [] then map[]
    else Want(named[..|named| - 1])[named[|named| - 1].K() := named[|named| - 1].addr]
  }

  lemma {:induction false} WantMeaning(named: seq<Named>, k: Key)
    ensures k in Want(named) <==> exists e :: e in named && e.K() == k
  {
    if named != [] {
      var n := |named| - 1;
      assert named == named[..n] + [named[n]];
      WantMeaning(named[..n], k);
    }
  }

  function Expected(named: seq<Named>, k: Key): NameAnswer {
    if k in Want(named) then At(Want(named)[k]) else NoName
  }

  /** The exception list is scanned in order, so the first match wins. */
  function FirstMatch(exc: seq<Named>, k: Key): Option<nat> {
    if exc == [] then None
    else if exc[0].K() == k then Some(exc[0].addr)
    else FirstMatch(exc[1..], k)
  }

  function StructuralName(l1: Level1, dir: seq<Entry>, mask: nat, k: Key): NameAnswer {
    if k.typ >= l1.n || k.nidx != 0 || !Bit(mask, k.typ) then NoName
    else if k.typ >= |l1.cnt| then NameCrash
    else if k.idx >= l1.cnt[k.typ] then NoName
    else if k.typ >= |l1.row| || l1.row[k.typ] + k.idx >= |dir| then NameCrash
    else At(dir[l1.row[k.typ] + k.idx].base + 4)
  }

  function ResolveName(l1: Level1, dir: seq<Entry>, mask: nat, exc: seq<Named>, k: Key): NameAnswer {
    match FirstMatch(exc, k)
    case Some(a) => At(a)
    case None => StructuralName(l1, dir, mask, k)
  }

  ghost predicate NameAgrees(l1: Level1, dir: seq<Entry>, named: seq<Named>, mask: nat, exc: seq<Named>, k: Key) {
    ResolveName(l1, dir, mask, exc, k) == Expected(named, k)
  }

  /** Mask plus exceptions answer every key, hit or miss, like the flat table. */
  ghost predicate NamesEquivalent(l1: Level1, dir: seq<Entry>, named: seq<Named>, mask: nat, exc: seq<Named>) {
    forall k :: NameAgrees(l1, dir, named, mask, exc, k)
  }

  ghost predicate ExceptionsAreNamed(exc: seq<Named>, named: seq<Named>) {
    forall e :: e in exc ==> e.K() in Want(named)
  }

  lemma {:induction false} FirstMatchMeaning(exc: seq<Named>, k: Key)
    ensures FirstMatch(exc, k).Some? <==> exists e :: e in exc && e.K() == k
  {
    if exc != [] && exc[0].K() != k {
      FirstMatchMeaning(exc[1..], k);
      assert forall e :: e in exc <==> e == exc[0] || e in exc[1..];
    }
  }

  /** Of a repeated NAMED key the dict keeps the last address, and the exception scan answers with the first. */
  lemma {:induction false} LastEntryWins(named: seq<Named>, j: nat)
    requires j < |named| && forall i :: j < i < |named| ==> named[i].K() != named[j].K()
    ensures named[j].K() in Want(named) && Want(named)[named[j].K()] == named[j].addr
  {
    if j < |named| - 1 {
      LastEntryWins(named[..|named| - 1], j);
    }
  }

  lemma {:induction false} FirstEntryWins(exc: seq<Named>, j: nat)
    requires j < |exc| && forall i :: 0 <= i < j ==> exc[i].K() != exc[j].K()
    ensures FirstMatch(exc, exc[j].K()) == Some(exc[j].addr)
  {
    if j > 0 {
      assert exc[1..][j - 1] == exc[j];
      FirstEntryWins(exc[1..], j - 1);
    }
  }

  // ----- the probe fence

  /** The miss probes beside one table entry. */
  function Beside(e: Named): set<Key> {
    {Key(e.typ, e.idx + 1, e.nidx), Key(e.typ, e.idx, e.nidx + 1), Key(e.typ, 0xFFFF, e.nidx)}
  }

  function EntryFence(named: seq<Named>): (f: set<Key>)
    ensures forall e :: e in named ==> Beside(e) <= f
  {
    if named == [] then {}
    else
      assert named == named[..|named| - 1] + [named[|named| - 1]];
      EntryFence(named[..|named| - 1]) + Beside(named[|named| - 1])
  }

  function SlotFence(n: nat): (f: set<Key>)
    ensures forall t: nat :: t < n ==> Key(t, 0, 0) in f
    ensures forall k :: k in f ==> k.nidx == 0
  {
    if n == 0 then {} else SlotFence(n - 1) + {Key(n - 1, 0, 0)}
  }

  function NameFence(l1: Level1, named: seq<Named>): set<Key> {
    Want(named).Keys + EntryFence(named) + SlotFence(l1.n + 4)
  }

  ghost predicate NameFenceAgrees(l1: Level1, dir: seq<Entry>, named: seq<Named>, mask: nat, exc: seq<Named>) {
    forall k :: k in NameFence(l1, named) ==> NameAgrees(l1, dir, named, mask, exc, k)
  }

  /**
   The name fence is exact precisely when no exception is stray: agreement on the probes,
   with every exception key a NAMED key, is agreement on every key there is.
   */
  lemma {:induction false} NameFenceIsExact(l1: Level1, dir: seq<Entry>, named: seq<Named>, mask: nat, exc: seq<Named>)
    ensures NameFenceAgrees(l1, dir, named, mask, exc) && ExceptionsAreNamed(exc, named)
            <==> NamesEquivalent(l1, dir, named, mask, exc)
  {
    if NameFenceAgrees(l1, dir, named, mask, exc) && ExceptionsAreNamed(exc, named) {
      forall k ensures NameAgrees(l1, dir, named, mask, exc, k) {
        UnprobedNamesAgree(l1, dir, named, mask, exc, k);
      }
    }
    if NamesEquivalent(l1, dir, named, mask, exc) {
      forall e | e in exc ensures e.K() in Want(named) {
        FirstMatchMeaning(exc, e.K());
        assert NameAgrees(l1, dir, named, mask, exc, e.K());
      }
    }
  }

  lemma {:induction false} UnprobedNamesAgree(l1: Level1, dir: seq<Entry>, named: seq<Named>, mask: nat,
                                              exc: seq<Named>, k: Key)
    requires NameFenceAgrees(l1, dir, named, mask, exc) && ExceptionsAreNamed(exc, named)
    ensures NameAgrees(l1, dir, named, mask, exc, k)
  {
    FirstMatchMeaning(exc, k);
    if k in Want(named) {
      assert k in NameFence(l1, named);
    } else if StructuralName(l1, dir, mask, k) != NoName {
      StructuralRunIsProbed(l1, dir, named, mask, exc, k.typ, k.idx);
    }
  }

  /** Induction along a structural run, starting from the probe at index 0. */
  lemma {:induction false} StructuralRunIsProbed(l1: Level1, dir: seq<Entry>, named: seq<Named>, mask: nat,
                                                 exc: seq<Named>, t: nat, i: nat)
    requires NameFenceAgrees(l1, dir, named, mask, exc)
    requires t < l1.n && Bit(mask, t) && (t < |l1.cnt| ==> i < l1.cnt[t])
    ensures Key(t, i, 0) in NameFence(l1, named)
    decreases i
  {
    if i > 0 {
      var before := Key(t, i - 1, 0);
      StructuralRunIsProbed(l1, dir, named, mask, exc, t, i - 1);
      assert NameAgrees(l1, dir, named, mask, exc, before);
      WantMeaning(named, before);
      var e :| e in named && e.K() == before;
      assert Key(t, i, 0) in Beside(e);
    }
  }

  /** A stray exception the fence never probes: the gate alone does not make the split exact. */
  lemma {:induction false} StrayExceptionPassesTheFence()
    ensures var l1 := Level1(1, 2, [0, 0], [0, 0]);
            var stray := [Named(9, 5, 3, 100)];
            NameFenceAgrees(l1, [], [], 0, stray) && !NamesEquivalent(l1, [], [], 0, stray)
  {
    var l1 := Level1(1, 2, [0, 0], [0, 0]);
    var stray := [Named(9, 5, 3, 100)];
    forall k | k in NameFence(l1, []) ensures NameAgrees(l1, [], [], 0, stray, k) {
      assert k.nidx == 0;
      ZeroHasNoBits(k.typ);
      assert stray[0].K() != k;
      assert FirstMatch(stray, k) == FirstMatch(stray[1..], k);
    }
    assert !NameAgrees(l1, [], [], 0, stray, Key(9, 5, 3));
  }

  method NameProbes(l1: Level1, named: seq<Named>) returns (probes: set<Key>)
    ensures probes == NameFence(l1, named)
  {
    probes := Want(named).Keys;
    for r := 0 to |named|
      invariant probes == Want(named).Keys + EntryFence(named[..r])
    {
      assert named[..r + 1][..r] == named[..r];
      var e := named[r];
      probes := probes + {Key(e.typ, e.idx + 1, e.nidx), Key(e.typ, e.idx, e.nidx + 1), Key(e.typ, 0xFFFF, e.nidx)};
    }
    assert named[..|named|] == named;
    for t := 0 to l1.n + 4
      invariant probes == Want(named).Keys + EntryFence(named) + SlotFence(t)
    {
      probes := probes + {Key(t, 0, 0)};
    }
  }

  /** The gate, probe by probe. */
  method CheckNamed(l1: Level1, dir: seq<Entry>, named: seq<Named>, mask: nat, exc: seq<Named>) returns (pass: bool)
    ensures pass <==> NameFenceAgrees(l1, dir, named, mask, exc)
    ensures pass && ExceptionsAreNamed(exc, named) <==> NamesEquivalent(l1, dir, named, mask, exc)
  {
    NameFenceIsExact(l1, dir, named, mask, exc);
    var want := Want(named);
    var probes := NameProbes(l1, named);
    var rest := probes;
    while rest != {}
      invariant forall k :: k in probes && k !in rest ==> NameAgrees(l1, dir, named, mask, exc, k)
      invariant rest <= probes
      decreases |rest|
    {
      var k :| k in rest;
      rest := rest - {k};
      var got := ResolveName(l1, dir, mask, exc, k);
      var exp := if k in want then At(want[k]) else NoName;
      if got != exp {
        assert !NameAgrees(l1, dir, named, mask, exc, k);
        return false;
      }
    }
    return true;
  }

  // ----- distinct keys

  ghost predicate DistinctNames(named: seq<Named>) {
    forall i, j :: 0 <= i < j < |named| ==> Differ(named[i], named[j])
  }

  ghost predicate Differ(a: Named, b: Named) {
    a.K() != b.K()
  }

  // ----- the split itself

  /** The entries of one type, in NAMED order: one `per_type` list. */
  function OfType(named: seq<Named>, t: nat): (es: seq<Named>)
    ensures forall e :: e in es ==> e.typ == t
  {
    if named == [] then []
    else
      var n := |named| - 1;
      OfType(named[..n], t) + if named[n].typ == t then [named[n]] else []
  }

  lemma {:induction false} OfTypeMeaning(named: seq<Named>, t: nat, e: Named)
    ensures e in OfType(named, t) <==> e in named && e.typ == t
  {
    if named != [] {
      var n := |named| - 1;
      assert named == named[..n] + [named[n]];
      OfTypeMeaning(named[..n], t, e);
    }
  }

  lemma {:induction false} FirstMatchConcat(a: seq<Named>, b: seq<Named>, k: Key)
    ensures FirstMatch(a + b, k) == if FirstMatch(a, k).Some? then FirstMatch(a, k) else FirstMatch(b, k)
  {
    if a == [] {
      assert a + b == b;
    } else {
      assert (a + b)[1..] == a[1..] + b;
      FirstMatchConcat(a[1..], b, k);
    }
  }

  lemma {:induction false} FirstMatchOfType(named: seq<Named>, t: nat, k: Key)
    ensures FirstMatch(OfType(named, t), k) == if k.typ == t then FirstMatch(named, k) else None
  {
    if named != [] {
      var n := |named| - 1;
      var tail := if named[n].typ == t then [named[n]] else [];
      assert named == named[..n] + [named[n]];
      FirstMatchConcat(named[..n], [named[n]], k);
      FirstMatchConcat(OfType(named[..n], t), tail, k);
      FirstMatchOfType(named[..n], t, k);
      assert [named[n]][1..] == [];
      assert FirstMatch([named[n]], k) == if named[n].K() == k then Some(named[n].addr) else None;
    }
  }

  /** `all(...)` over one type's entries; the base lookup of an absent descriptor is a KeyError. */
  function AllAtBasePlus4(dir: seq<Entry>, entries: seq<Named>): Result<bool> {
    if entries == [] then Ok(true)
    else
      var e := entries[0];
      if e.nidx != 0 then Ok(false)
      else
        var found := Linear(dir, e.typ, e.idx);
        if !found.Hit? then Err
        else if e.addr != found.base + 4 then Ok(false)
        else AllAtBasePlus4(dir, entries[1..])
  }

  /** `sorted(indices) == list(range(count))` */
  predicate IsWholeRange(entries: seq<Named>, count: nat) {
    multiset(Indices(entries)) == multiset(Range(count))
  }

  function IsStructural(l1: Level1, dir: seq<Entry>, t: nat, entries: seq<Named>): Result<bool> {
    if t >= l1.n then Ok(false)
    else
      var aligned :- AllAtBasePlus4(dir, entries);
      if !aligned then Ok(false)
      else if t >= |l1.cnt| then Err
      else Ok(IsWholeRange(entries, l1.cnt[t]))
  }

  ghost predicate StructuralType(l1: Level1, dir: seq<Entry>, named: seq<Named>, t: nat) {
    OfType(named, t) != [] && IsStructural(l1, dir, t, OfType(named, t)) == Ok(true)
  }

  /** How often NAMED lists index i of type t. */
  function Times(named: seq<Named>, t: nat, i: nat): nat {
    if named == [] then 0
    else
      var last := named[|named| - 1];
      Times(named[..|named| - 1], t, i) + if last.typ == t && last.idx == i then 1 else 0
  }

  /** NAMED lists the object_name of this descriptor: name_index 0, at base + 4. */
  ghost predicate AtObjectName(dir: seq<Entry>, e: Named) {
    e.nidx == 0 && Linear(dir, e.typ, e.idx).Hit? && e.addr == Linear(dir, e.typ, e.idx).base + 4
  }

  /** NAMED lists type t throughout: some entry, none but object_names, and each of the CNT indices once. */
  ghost predicate NamedThroughout(l1: Level1, dir: seq<Entry>, named: seq<Named>, t: nat) {
    && t < l1.n && t < |l1.cnt|
    && (exists e :: e in named && e.typ == t)
    && (forall e :: e in named && e.typ == t ==> AtObjectName(dir, e))
    && OnceEach(named, t, l1.cnt[t])
  }

  /** Each index below count is named once, and no other. */
  ghost predicate OnceEach(named: seq<Named>, t: nat, count: nat) {
    forall i: nat :: Times(named, t, i) == if i < count then 1 else 0
  }

  /** What the split leaves: the mask holds the types named throughout, the exceptions the entries of the rest. */
  ghost predicate IsSplit(l1: Level1, dir: seq<Entry>, named: seq<Named>, mask: nat, exc: seq<Named>) {
    && (forall t :: Bit(mask, t) <==> NamedThroughout(l1, dir, named, t))
    && (forall t :: OfType(exc, t) == if NamedThroughout(l1, dir, named, t) then [] else OfType(named, t))
    && TypesAscend(exc)
  }

  /** The exceptions come type by type. */
  ghost predicate TypesAscend(exc: seq<Named>) {
    forall i, j :: 0 <= i < j < |exc| ==> TypeUpTo(exc[i], exc[j])
  }

  ghost predicate TypeUpTo(a: Named, b: Named) {
    a.typ <= b.typ
  }

  function Indices(entries: seq<Named>): seq<nat> {
    seq(|entries|, j requires 0 <= j < |entries| => entries[j].idx)
  }

  lemma {:induction false} TimesInIndices(named: seq<Named>, t: nat, i: nat)
    ensures multiset(Indices(OfType(named, t)))[i] == Times(named, t, i)
  {
    if named != [] {
      var n := |named| - 1;
      var before := OfType(named[..n], t);
      TimesInIndices(named[..n], t, i);
      if named[n].typ == t {
        assert Indices(before + [named[n]]) == Indices(before) + [named[n].idx];
      } else {
        assert before + [] == before;
      }
    }
  }

  lemma {:induction false} TimesInRange(n: nat, i: nat)
    ensures multiset(Range(n))[i] == if i < n then 1 else 0
  {
    if n > 0 {
      TimesInRange(n - 1, i);
      assert Range(n) == Range(n - 1) + [n - 1];
    }
  }

  /** Sorted, one type's indices are 0 to count - 1 exactly when each of those is named once, and no other. */
  lemma {:induction false} WholeRangeExactly(named: seq<Named>, t: nat, count: nat)
    ensures IsWholeRange(OfType(named, t), count) <==> OnceEach(named, t, count)
  {
    var indices, range := multiset(Indices(OfType(named, t))), multiset(Range(count));
    if OnceEach(named, t, count) {
      forall i: nat ensures indices[i] == range[i] {
        TimesInIndices(named, t, i);
        TimesInRange(count, i);
      }
      assert indices == range;
    }
    if indices == range {
      forall i: nat ensures Times(named, t, i) == if i < count then 1 else 0 {
        TimesInIndices(named, t, i);
        TimesInRange(count, i);
      }
    }
  }

  lemma {:induction false} AlignedExactly(dir: seq<Entry>, entries: seq<Named>)
    ensures AllAtBasePlus4(dir, entries) == Ok(true) <==> forall e :: e in entries ==> AtObjectName(dir, e)
  {
    if entries != [] {
      AlignedExactly(dir, entries[1..]);
      assert entries == [entries[0]] + entries[1..];
      assert (forall e :: e in entries ==> AtObjectName(dir, e)) <==>
             AtObjectName(dir, entries[0]) && forall e :: e in entries[1..] ==> AtObjectName(dir, e);
    }
  }

  /** The loop's test is what the mask means. */
  lemma {:induction false} StructuralExactly(l1: Level1, dir: seq<Entry>, named: seq<Named>, t: nat)
    ensures StructuralType(l1, dir, named, t) <==> NamedThroughout(l1, dir, named, t)
  {
    var entries := OfType(named, t);
    forall e ensures e in entries <==> e in named && e.typ == t {
      OfTypeMeaning(named, t, e);
    }
    AlignedExactly(dir, entries);
    if t < |l1.cnt| {
      WholeRangeExactly(named, t, l1.cnt[t]);
    }
    if entries != [] {
      assert entries[0] in entries;
    }
  }

  /** What the split means for one key. */
  lemma {:induction false} SplitAnswers(l1: Level1, dir: seq<Entry>, named: seq<Named>, mask: nat, exc: seq<Named>,
                                        k: Key)
    requires IsSplit(l1, dir, named, mask, exc)
    ensures Bit(mask, k.typ) <==> StructuralType(l1, dir, named, k.typ)
    ensures FirstMatch(exc, k) == if StructuralType(l1, dir, named, k.typ) then None else FirstMatch(named, k)
  {
    StructuralExactly(l1, dir, named, k.typ);
    FirstMatchOfType(exc, k.typ, k);
    FirstMatchOfType(named, k.typ, k);
    assert OfType(exc, k.typ) == if NamedThroughout(l1, dir, named, k.typ) then [] else OfType(named, k.typ);
  }

  lemma {:induction false} SplitNamesOnly(l1: Level1, dir: seq<Entry>, named: seq<Named>, mask: nat, exc: seq<Named>)
    requires IsSplit(l1, dir, named, mask, exc)
    ensures ExceptionsAreNamed(exc, named)
  {
    forall e | e in exc ensures e.K() in Want(named) {
      OfTypeMeaning(exc, e.typ, e);
      OfTypeMeaning(named, e.typ, e);
      assert OfType(exc, e.typ) != [] ==> OfType(exc, e.typ) == OfType(named, e.typ);
      WantMeaning(named, e.K());
    }
  }

  /** Every named object has a descriptor in the directory. */
  ghost predicate NamesPresent(dir: seq<Entry>, named: seq<Named>) {
    forall e :: e in named ==> Linear(dir, e.typ, e.idx).Hit?
  }

  /** A key may repeat only if its first and last addresses agree; distinct keys always do. */
  ghost predicate FirstIsLast(named: seq<Named>) {
    forall k :: k in Want(named) ==> FirstMatch(named, k) == Some(Want(named)[k])
  }

  lemma {:induction false} WantIsAnEntry(named: seq<Named>, k: Key)
    requires k in Want(named)
    ensures Named(k.typ, k.idx, k.nidx, Want(named)[k]) in named
  {
    var n := |named| - 1;
    assert named == named[..n] + [named[n]];
    if named[n].K() != k {
      WantIsAnEntry(named[..n], k);
    }
  }

  lemma {:induction false} FirstMatchIsAnEntry(named: seq<Named>, k: Key)
    requires FirstMatch(named, k).Some?
    ensures Named(k.typ, k.idx, k.nidx, FirstMatch(named, k).value) in named
  {
    if named[0].K() != k {
      FirstMatchIsAnEntry(named[1..], k);
    }
  }

  lemma {:induction false} AlignedEntries(dir: seq<Entry>, entries: seq<Named>, e: Named)
    requires AllAtBasePlus4(dir, entries) == Ok(true) && e in entries
    ensures e.nidx == 0 && Linear(dir, e.typ, e.idx).Hit? && e.addr == Linear(dir, e.typ, e.idx).base + 4
  {
    if e != entries[0] {
      assert e in entries[1..];
      AlignedEntries(dir, entries[1..], e);
    }
  }

  lemma {:induction false} PresentEntriesAlignOrNot(dir: seq<Entry>, entries: seq<Named>)
    requires NamesPresent(dir, entries)
    ensures AllAtBasePlus4(dir, entries).Ok?
  {
    if entries != [] {
      assert entries[0] in entries;
      forall e | e in entries[1..] ensures Linear(dir, e.typ, e.idx).Hit? {
        assert e in entries;
      }
      PresentEntriesAlignOrNot(dir, entries[1..]);
    }
  }

  /** A whole range of indices has an entry for exactly the indices below the count. */
  lemma {:induction false} WholeRangeMeaning(entries: seq<Named>, count: nat, i: nat)
    requires IsWholeRange(entries, count)
    ensures i < count <==> exists e :: e in entries && e.idx == i
  {
    var indices := Indices(entries);
    var range := Range(count);
    assert i in multiset(indices) <==> i in multiset(range);
    assert i in range <==> i < count by {
      if i < count {
        assert range[i] == i;
      }
    }
    if i in indices {
      var j :| 0 <= j < |indices| && indices[j] == i;
      assert entries[j] in entries;
    }
    if e :| e in entries && e.idx == i {
      var j :| 0 <= j < |entries| && entries[j] == e;
      assert indices[j] == i;
    }
  }

  /** A structural type's key is NAMED exactly when the directory run has that index, at base + 4. */
  lemma {:induction false} StructuralKeyAgrees(l1: Level1, dir: seq<Entry>, named: seq<Named>, mask: nat, k: Key)
    requires IsLevel1Of(l1, dir) && StructuralType(l1, dir, named, k.typ) && Bit(mask, k.typ)
    ensures StructuralName(l1, dir, mask, k) == Expected(named, k)
    ensures k in Want(named) ==> FirstMatch(named, k) == Some(Want(named)[k])
  {
    var t, entries := k.typ, OfType(named, k.typ);
    Level1IsExact(l1, dir);
    assert Agrees(l1, dir, t, k.idx);
    WantMeaning(named, k);
    FirstMatchMeaning(named, k);
    WholeRangeMeaning(entries, l1.cnt[t], k.idx);
    if k in Want(named) {
      WantIsAnEntry(named, k);
      FirstMatchIsAnEntry(named, k);
      var w := Named(k.typ, k.idx, k.nidx, Want(named)[k]);
      var f := Named(k.typ, k.idx, k.nidx, FirstMatch(named, k).value);
      OfTypeMeaning(named, t, w);
      OfTypeMeaning(named, t, f);
      AlignedEntries(dir, entries, w);
      AlignedEntries(dir, entries, f);
    } else if k.nidx == 0 && k.idx < l1.cnt[t] {
      var e :| e in entries && e.idx == k.idx;
      OfTypeMeaning(named, t, e);
      AlignedEntries(dir, entries, e);
      assert false;
    }
  }

  /** The split is exact if and only if no key's first and last addresses differ. */
  lemma {:induction false} SplitIsExact(l1: Level1, dir: seq<Entry>, named: seq<Named>, mask: nat, exc: seq<Named>)
    requires IsSplit(l1, dir, named, mask, exc)
    ensures IsLevel1Of(l1, dir) ==> (NamesEquivalent(l1, dir, named, mask, exc) <==> FirstIsLast(named))
  {
    forall k | IsLevel1Of(l1, dir) ensures NameAgrees(l1, dir, named, mask, exc, k)
                     <==> (k in Want(named) ==> FirstMatch(named, k) == Some(Want(named)[k])) {
      SplitAnswers(l1, dir, named, mask, exc, k);
      if StructuralType(l1, dir, named, k.typ) {
        StructuralKeyAgrees(l1, dir, named, mask, k);
      } else {
        FirstMatchMeaning(named, k);
        WantMeaning(named, k);
      }
    }
  }

  lemma {:induction false} OfTypeConcat(a: seq<Named>, b: seq<Named>, t: nat)
    ensures OfType(a + b, t) == OfType(a, t) + OfType(b, t)
  {
    if b == [] {
      assert a + b == a && OfType(a, t) + [] == OfType(a, t);
    } else {
      var n := |b| - 1;
      var last := if b[n].typ == t then [b[n]] else [];
      assert (a + b)[..|a| + n] == a + b[..n] && (a + b)[|a| + n] == b[n];
      OfTypeConcat(a, b[..n], t);
      assert OfType(a + b, t) == OfType(a, t) + OfType(b[..n], t) + last;
      assert OfType(a, t) + OfType(b[..n], t) + last == OfType(a, t) + (OfType(b[..n], t) + last);
    }
  }

  lemma {:induction false} OfTypeOf(es: seq<Named>, t: nat, u: nat)
    requires forall e :: e in es ==> e.typ == t
    ensures OfType(es, u) == if u == t then es else []
  {
    if es != [] {
      var n := |es| - 1;
      assert es == es[..n] + [es[n]] && es[n] in es;
      OfTypeOf(es[..n], t, u);
    }
  }

  /** The split restricted to the types already visited. */
  ghost predicate IsSplitOf(l1: Level1, dir: seq<Entry>, named: seq<Named>, types: seq<nat>, mask: nat,
                            exc: seq<Named>) {
    && (forall t :: Bit(mask, t) <==> t in types && NamedThroughout(l1, dir, named, t))
    && (forall t :: OfType(exc, t) ==
                    if t in types && !NamedThroughout(l1, dir, named, t) then OfType(named, t) else [])
    && TypesAscend(exc) && forall e :: e in exc ==> e.typ in types
  }

  lemma {:induction false} MaskStep(l1: Level1, dir: seq<Entry>, named: seq<Named>, types: seq<nat>, mask: nat,
                                    exc: seq<Named>, t: nat)
    requires IsSplitOf(l1, dir, named, types, mask, exc) && NamedThroughout(l1, dir, named, t) && t !in types
    ensures IsSplitOf(l1, dir, named, types + [t], SetBit(mask, t), exc)
  {
    forall u ensures Bit(SetBit(mask, t), u) == (u == t || Bit(mask, u)) {
      SetBitFrame(mask, t, u);
    }
  }

  lemma {:induction false} ExceptionStep(l1: Level1, dir: seq<Entry>, named: seq<Named>, types: seq<nat>, mask: nat,
                                         exc: seq<Named>, t: nat)
    requires IsSplitOf(l1, dir, named, types, mask, exc) && !NamedThroughout(l1, dir, named, t)
    requires forall u :: u in types ==> u < t
    ensures IsSplitOf(l1, dir, named, types + [t], mask, exc + OfType(named, t))
  {
    var own := OfType(named, t);
    forall u: nat
      ensures OfType(exc + own, u) == if u in types + [t] && !NamedThroughout(l1, dir, named, u) then OfType(named, u) else []
    {
      OwnGroup(exc, own, t, u);
    }
    AscendAppend(exc, own, t);
  }

  /** Appending a new type's entries adds that group and leaves the others. */
  lemma {:induction false} OwnGroup(exc: seq<Named>, own: seq<Named>, t: nat, u: nat)
    requires OfType(exc, t) == [] && forall e :: e in own ==> e.typ == t
    ensures OfType(exc + own, u) == if u == t then own else OfType(exc, u)
  {
    OfTypeConcat(exc, own, u);
    OfTypeOf(own, t, u);
    assert OfType(exc, u) + [] == OfType(exc, u) && [] + own == own;
  }

  lemma {:induction false} AscendAppend(exc: seq<Named>, own: seq<Named>, t: nat)
    requires TypesAscend(exc) && (forall e :: e in exc ==> e.typ < t) && (forall e :: e in own ==> e.typ == t)
    ensures TypesAscend(exc + own)
  {
    var all := exc + own;
    forall i, j | 0 <= i < j < |all| ensures TypeUpTo(all[i], all[j]) {
      if j < |exc| {
        assert TypeUpTo(exc[i], exc[j]);
      } else {
        assert all[j] in own;
        assert i < |exc| ==> all[i] in exc;
        assert i >= |exc| ==> all[i] in own;
      }
    }
  }

  lemma {:induction false} AllTypesVisited(l1: Level1, dir: seq<Entry>, named: seq<Named>, types: seq<nat>, mask: nat,
                                           exc: seq<Named>)
    requires IsSplitOf(l1, dir, named, types, mask, exc)
    requires forall t :: OfType(named, t) != [] ==> t in types
    ensures IsSplit(l1, dir, named, mask, exc)
  {
    forall t | t !in types ensures !NamedThroughout(l1, dir, named, t) {
      if e :| e in named && e.typ == t {
        OfTypeMeaning(named, t, e);
      }
    }
  }

  ghost predicate Grouped(perType: map<nat, seq<Named>>, named: seq<Named>, t: nat) {
    if OfType(named, t) == [] then t !in perType else t in perType && perType[t] == OfType(named, t)
  }

  /** The `per_type` dict. */
  method GroupByType(named: seq<Named>) returns (perType: map<nat, seq<Named>>)
    ensures forall t: nat :: Grouped(perType, named, t)
  {
    perType := map[];
    for r := 0 to |named|
      invariant forall t: nat :: Grouped(perType, named[..r], t)
    {
      var t := named[r].typ;
      assert Grouped(perType, named[..r], t);
      ghost var before := perType;
      perType := perType[t := (if t in perType then perType[t] else []) + [named[r]]];
      ghost var next := named[..r + 1];
      assert next[..r] == named[..r];
      forall u: nat ensures Grouped(perType, next, u) {
        assert Grouped(before, named[..r], u);
      }
    }
    assert named[..|named|] == named;
  }

  lemma {:induction false} PresentTypesNeverFail(l1: Level1, dir: seq<Entry>, named: seq<Named>, t: nat)
    ensures IsLevel1Of(l1, dir) && NamesPresent(dir, named) ==> IsStructural(l1, dir, t, OfType(named, t)).Ok?
  {
    if NamesPresent(dir, named) {
      forall e | e in OfType(named, t) ensures Linear(dir, e.typ, e.idx).Hit? {
        OfTypeMeaning(named, t, e);
      }
      PresentEntriesAlignOrNot(dir, OfType(named, t));
    }
  }

  lemma {:induction false} NothingVisited(l1: Level1, dir: seq<Entry>, named: seq<Named>)
    ensures IsSplitOf(l1, dir, named, [], 0, [])
  {
    forall u ensures !Bit(0, u) {
      ZeroHasNoBits(u);
    }
  }

  /** One more type, to the mask or to the exceptions. */
  lemma {:induction false} SplitStep(l1: Level1, dir: seq<Entry>, named: seq<Named>, types: seq<nat>, s: nat, mask: nat,
                                     exc: seq<Named>)
    requires Ascending(types) && s < |types| && IsSplitOf(l1, dir, named, types[..s], mask, exc)
    requires OfType(named, types[s]) != []
    ensures IsStructural(l1, dir, types[s], OfType(named, types[s])) == Ok(true) ==>
              IsSplitOf(l1, dir, named, types[..s + 1], SetBit(mask, types[s]), exc)
    ensures IsStructural(l1, dir, types[s], OfType(named, types[s])) != Ok(true) ==>
              IsSplitOf(l1, dir, named, types[..s + 1], mask, exc + OfType(named, types[s]))
  {
    var t := types[s];
    AscendingPrefix(types, s);
    StructuralExactly(l1, dir, named, t);
    if StructuralType(l1, dir, named, t) {
      MaskStep(l1, dir, named, types[..s], mask, exc, t);
    } else {
      ExceptionStep(l1, dir, named, types[..s], mask, exc, t);
    }
  }

  lemma {:induction false} EveryTypeListed(perType: map<nat, seq<Named>>, named: seq<Named>, types: seq<nat>)
    requires (forall t: nat :: Grouped(perType, named, t)) && forall t :: t in types <==> t in perType
    ensures forall t :: OfType(named, t) != [] <==> t in types
    ensures forall t :: t in types ==> t in perType && perType[t] == OfType(named, t)
  {
    forall t: nat ensures OfType(named, t) != [] <==> t in types {
      assert Grouped(perType, named, t);
    }
    forall t | t in types ensures t in perType && perType[t] == OfType(named, t) {
      assert Grouped(perType, named, t);
    }
  }

  /**
   Whatever it accepts answers every key like the flat table; and on a level-1 view of the
   directory with every named object present it refuses only a key with conflicting addresses.
   */
  method NamedStructure(l1: Level1, dir: seq<Entry>, named: seq<Named>) returns (res: Result<(nat, seq<Named>)>)
    ensures res.Ok? ==> IsSplit(l1, dir, named, res.value.0, res.value.1)
    ensures res.Ok? ==> NamesEquivalent(l1, dir, named, res.value.0, res.value.1)
    ensures IsLevel1Of(l1, dir) && NamesPresent(dir, named) ==> (res.Ok? <==> FirstIsLast(named))
  {
    var perType := GroupByType(named);
    var types := Sorted(perType.Keys);
    EveryTypeListed(perType, named, types);
    var split := SplitTypes(l1, dir, named, perType, types);
    if split.Err? {
      return Err;
    }
    var (mask, exc) := split.value;
    SplitNamesOnly(l1, dir, named, mask, exc);
    SplitIsExact(l1, dir, named, mask, exc);
    var pass := CheckNamed(l1, dir, named, mask, exc);
    return if pass then Ok((mask, exc)) else Err;
  }

  /** The loop over the sorted types. */
  method SplitTypes(l1: Level1, dir: seq<Entry>, named: seq<Named>, perType: map<nat, seq<Named>>, types: seq<nat>)
    returns (res: Result<(nat, seq<Named>)>)
    requires Ascending(types) && forall t :: OfType(named, t) != [] <==> t in types
    requires forall t :: t in types ==> t in perType && perType[t] == OfType(named, t)
    ensures res.Ok? ==> IsSplit(l1, dir, named, res.value.0, res.value.1)
    ensures IsLevel1Of(l1, dir) && NamesPresent(dir, named) ==> res.Ok?
  {
    var mask, exc := 0, [];
    NothingVisited(l1, dir, named);
    for s := 0 to |types|
      invariant IsSplitOf(l1, dir, named, types[..s], mask, exc)
    {
      var t := types[s];
      assert t in types;
      SplitStep(l1, dir, named, types, s, mask, exc);
      var structural := IsStructural(l1, dir, t, perType[t]);
      if structural.Err? {
        PresentTypesNeverFail(l1, dir, named, t);
        return Err;
      }
      if structural.value {
        mask := SetBit(mask, t);
      } else {
        exc := exc + perType[t];
      }
    }
    assert types[..|types|] == types;
    AllTypesVisited(l1, dir, named, types, mask, exc);
    return Ok((mask, exc));
  }

  /** Distinct keys never conflict. */
  lemma {:induction false} DistinctNamesAreConsistent(named: seq<Named>)
    requires DistinctNames(named)
    ensures FirstIsLast(named)
  {
    forall k | k in Want(named) ensures FirstMatch(named, k) == Some(Want(named)[k]) {
      WantMeaning(named, k);
      FirstMatchMeaning(named, k);
      WantIsAnEntry(named, k);
      FirstMatchIsAnEntry(named, k);
      var w := Named(k.typ, k.idx, k.nidx, Want(named)[k]);
      var f := Named(k.typ, k.idx, k.nidx, FirstMatch(named, k).value);
      var i :| 0 <= i < |named| && named[i] == w;
      var j :| 0 <= j < |named| && named[j] == f;
      SameKeySameEntry(named, i, j);
    }
  }

  lemma {:induction false} SameKeySameEntry(named: seq<Named>, i: nat, j: nat)
    requires DistinctNames(named) && i < |named| && j < |named| && named[i].K() == named[j].K()
    ensures i == j
  {
  }
}
