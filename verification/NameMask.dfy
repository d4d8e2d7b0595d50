/**
 NAME_MASK and NAME_EXC of a built model (avdecc/aem_assemble.py, `named_structure` on what
 `_named_addresses` lists): every named type but ENTITY goes to the mask.
 */
module NameMask {
  import opened Assemble
  import opened AemSpec
  import opened Bits
  import opened BuildModel
  import opened Descriptors
  import opened ModelDocument
  import opened NameSplit
  import opened TwoLevel

  ghost predicate HasRow(dir: seq<Entry>, t: nat, i: nat) {
    exists r :: 0 <= r < |dir| && IsRow(dir, r, t, i)
  }

  ghost predicate IsRow(dir: seq<Entry>, r: nat, t: nat, i: nat)
    requires r < |dir|
  {
    dir[r].typ == t && dir[r].idx == i
  }

  ghost predicate HasType(dir: seq<Entry>, t: nat) {
    exists i :: HasRow(dir, t, i)
  }

  lemma {:induction false} TimesConcat(a: seq<Named>, b: seq<Named>, t: nat, i: nat)
    ensures Times(a + b, t, i) == Times(a, t, i) + Times(b, t, i)
  {
    if b == [] {
      assert a + b == a;
    } else {
      var n := |b| - 1;
      assert (a + b)[..|a| + n] == a + b[..n];
      TimesConcat(a, b[..n], t, i);
    }
  }

  function OwnName(e: Entry): seq<Named> {
    if IsNamedType(e.typ) then [Named(e.typ, e.idx, 0, e.base + 4)] else []
  }

  lemma {:induction false} OwnNameOnce(e: Entry, t: nat, i: nat)
    requires IsNamedType(t)
    ensures Times(OwnName(e), t, i) == if e.typ == t && e.idx == i then 1 else 0
  {
    if IsNamedType(e.typ) {
      assert OwnName(e)[..0] == [];
    }
  }

  /** The first n rows name a descriptor once if it is among them. */
  lemma {:induction false} RowsNameOnce(dir: seq<Entry>, n: nat, t: nat, i: nat)
    requires Addressable(dir) && n <= |dir| && IsNamedType(t)
    ensures Times(NamedRows(dir[..n]), t, i) == if HasRow(dir[..n], t, i) then 1 else 0
  {
    if n > 0 {
      RowsNameOnce(dir, n - 1, t, i);
      assert dir[..n][..n - 1] == dir[..n - 1];
      TimesConcat(NamedRows(dir[..n - 1]), OwnName(dir[n - 1]), t, i);
      OwnNameOnce(dir[n - 1], t, i);
      LastRow(dir, n, t, i);
    }
  }

  lemma {:induction false} LastRow(dir: seq<Entry>, n: nat, t: nat, i: nat)
    requires Addressable(dir) && 0 < n <= |dir|
    ensures HasRow(dir[..n], t, i) <==> HasRow(dir[..n - 1], t, i) || IsRow(dir, n - 1, t, i)
    ensures IsRow(dir, n - 1, t, i) ==> !HasRow(dir[..n - 1], t, i)
  {
    var front, all := dir[..n - 1], dir[..n];
    if r :| 0 <= r < n - 1 && IsRow(front, r, t, i) {
      assert IsRow(all, r, t, i);
      if IsRow(dir, n - 1, t, i) {
        KeysAreUnique(dir, r, n - 1);
      }
    }
    if IsRow(dir, n - 1, t, i) {
      assert IsRow(all, n - 1, t, i);
    }
    if r :| 0 <= r < n && IsRow(all, r, t, i) {
      assert r < n - 1 ==> IsRow(front, r, t, i);
    }
  }

  /** NAMED lists each row of a named type once, at its object_name. */
  lemma {:induction false} NamedListsRows(dir: seq<Entry>, t: nat, i: nat)
    requires Addressable(dir) && IsNamedType(t)
    ensures Times(NamedAddresses(dir, 0), t, i) == if HasRow(dir, t, i) then 1 else 0
  {
    var pair := [Named(ENTITY, 0, 0, 48), Named(ENTITY, 0, 1, 180)];
    assert Times(pair[..1][..0], t, i) == 0 && Times(pair[..1], t, i) == 0 && Times(pair, t, i) == 0;
    TimesConcat(pair, NamedRows(dir), t, i);
    RowsNameOnce(dir, |dir|, t, i);
    assert dir[..|dir|] == dir;
  }

  lemma {:induction false} CountIsPresence(l1: Level1, dir: seq<Entry>, t: nat, i: nat)
    requires IsLevel1Of(l1, dir)
    ensures HasRow(dir, t, i) <==> t < l1.n && i < l1.cnt[t]
  {
    Level1IsExact(l1, dir);
    assert Agrees(l1, dir, t, i);
    LinearMeaning(dir, t, i);
    if Linear(dir, t, i).Hit? {
      var r :| 0 <= r < |dir| && dir[r].typ == t && dir[r].idx == i;
      assert IsRow(dir, r, t, i);
    }
    if r :| 0 <= r < |dir| && IsRow(dir, r, t, i) {
      assert Linear(dir, t, i) != Miss;
    }
  }

  lemma {:induction false} EntriesOfType(dir: seq<Entry>, t: nat, e: Named)
    requires Addressable(dir) && e in NamedAddresses(dir, 0) && e.typ == t && t != ENTITY
    ensures IsNamedType(t) && AtObjectName(dir, e) && HasRow(dir, t, e.idx)
  {
    assert e in NamedRows(dir);
    NamedRowsMeaning(dir, e);
    var r :| 0 <= r < |dir| && IsNamedType(dir[r].typ) && e == Named(dir[r].typ, dir[r].idx, 0, dir[r].base + 4);
    BaseOfRow(dir, r);
    assert IsRow(dir, r, t, e.idx);
  }

  lemma {:induction false} RowIsListed(dir: seq<Entry>, t: nat, i: nat) returns (e: Named)
    requires Addressable(dir) && IsNamedType(t) && HasRow(dir, t, i)
    ensures e in NamedAddresses(dir, 0) && e.typ == t
  {
    var r :| 0 <= r < |dir| && IsRow(dir, r, t, i);
    e := Named(dir[r].typ, dir[r].idx, 0, dir[r].base + 4);
    NamedRowsMeaning(dir, e);
  }

  /** A type but ENTITY is named throughout exactly when it is a named type with a row. */
  lemma {:induction false} NamedTypesAreThroughout(l1: Level1, dir: seq<Entry>, t: nat)
    requires Addressable(dir) && IsLevel1Of(l1, dir) && t != ENTITY
    ensures NamedThroughout(l1, dir, NamedAddresses(dir, 0), t) <==> IsNamedType(t) && HasType(dir, t)
  {
    var named := NamedAddresses(dir, 0);
    forall e | e in named && e.typ == t ensures IsNamedType(t) && AtObjectName(dir, e) && HasRow(dir, t, e.idx) {
      EntriesOfType(dir, t, e);
    }
    if IsNamedType(t) && HasType(dir, t) {
      var i :| HasRow(dir, t, i);
      var e := RowIsListed(dir, t, i);
      CountIsPresence(l1, dir, t, i);
      forall k: nat ensures Times(named, t, k) == if k < l1.cnt[t] then 1 else 0 {
        NamedListsRows(dir, t, k);
        CountIsPresence(l1, dir, t, k);
      }
    }
  }

  lemma {:induction false} EntityIsNotStructural(l1: Level1, dir: seq<Entry>)
    ensures !NamedThroughout(l1, dir, NamedAddresses(dir, 0), ENTITY)
  {
    var second := Named(ENTITY, 0, 1, 180);
    assert NamedAddresses(dir, 0)[1] == second;
    assert second in NamedAddresses(dir, 0) && !AtObjectName(dir, second);
  }

  lemma {:induction false} EntityEntries(dir: seq<Entry>)
    ensures OfType(NamedAddresses(dir, 0), ENTITY) == [Named(ENTITY, 0, 0, 48), Named(ENTITY, 0, 1, 180)]
  {
    var pair, rows := [Named(ENTITY, 0, 0, 48), Named(ENTITY, 0, 1, 180)], NamedRows(dir);
    OfTypeConcat(pair, rows, ENTITY);
    OfTypeOf(pair, ENTITY, ENTITY);
    if OfType(rows, ENTITY) != [] {
      var e := OfType(rows, ENTITY)[0];
      OfTypeMeaning(rows, ENTITY, e);
      NamedRowsMeaning(dir, e);
      assert false;
    }
  }

  /** An exception is an entry of a type not named throughout, so one of ENTITY's. */
  lemma {:induction false} ExceptionsAreEntity(l1: Level1, dir: seq<Entry>, mask: nat, exc: seq<Named>, e: Named)
    requires Addressable(dir) && IsLevel1Of(l1, dir) && IsSplit(l1, dir, NamedAddresses(dir, 0), mask, exc)
    ensures e in exc ==> e.typ == ENTITY
  {
    if e in exc && e.typ != ENTITY {
      var named := NamedAddresses(dir, 0);
      OfTypeMeaning(exc, e.typ, e);
      OfTypeMeaning(named, e.typ, e);
      assert OfType(exc, e.typ) == if NamedThroughout(l1, dir, named, e.typ) then [] else OfType(named, e.typ);
      EntriesOfType(dir, e.typ, e);
      NamedTypesAreThroughout(l1, dir, e.typ);
      assert false;
    }
  }

  /**
   The mask of a built model holds exactly the named types its directory has, and its exceptions are
   exactly ENTITY's two names.
   */
  lemma {:induction false} SplitOfModel(m: Model, spec: Spec)
    requires IsModelOf(m, spec)
    ensures forall t: nat :: Bit(m.nameMask, t) <==> t in {1, 2, 5, 6, 9, 10, 20, 26, 36} && HasType(m.directory, t)
    ensures m.nameExc == [Named(0, 0, 0, 48), Named(0, 0, 1, 180)]
  {
    ModelIsLaidOut(m, spec);
    SplitOfDirectory(m.l1, m.directory, m.nameMask, m.nameExc);
  }

  lemma {:induction false} SplitOfDirectory(l1: Level1, dir: seq<Entry>, mask: nat, exc: seq<Named>)
    requires Addressable(dir) && IsLevel1Of(l1, dir) && IsSplit(l1, dir, NamedAddresses(dir, 0), mask, exc)
    ensures forall t: nat :: Bit(mask, t) <==> t in {1, 2, 5, 6, 9, 10, 20, 26, 36} && HasType(dir, t)
    ensures exc == [Named(0, 0, 0, 48), Named(0, 0, 1, 180)]
  {
    EntityIsNotStructural(l1, dir);
    forall t: nat ensures Bit(mask, t) <==> t in {1, 2, 5, 6, 9, 10, 20, 26, 36} && HasType(dir, t) {
      if t != ENTITY {
        NamedTypesAreThroughout(l1, dir, t);
      }
    }
    forall e | e in exc ensures e.typ == ENTITY {
      ExceptionsAreEntity(l1, dir, mask, exc, e);
    }
    OfTypeOf(exc, ENTITY, ENTITY);
    EntityEntries(dir);
  }
}
