/**
 The descriptor directory and its two-level, direct-indexed view
 (avdecc/aem_assemble.py, `two_level_directory` and `check_two_level`).

 The directory is a list of rows; the linear scan is the reference answer, and the
 level-1 table answers the same question with two array reads.
 */
module TwoLevel {
  import opened Bits
  import opened Sequences
  import opened Wrappers

  datatype Entry = Entry(typ: nat, idx: nat, base: nat, length: nat)

  /** AW, N, CNT and ROW of the emitted level-1 table. */
  datatype Level1 = Level1(aw: nat, n: nat, cnt: seq<nat>, row: seq<nat>)

  /** `Crash` is the IndexError a malformed table provokes. */
  datatype Answer = Hit(base: nat, length: nat) | Miss | Crash

  // ----- the layout the level-1 table depends on

  ghost predicate OneRunPerType(dir: seq<Entry>) {
    forall a, b, c :: 0 <= a < b < c < |dir| ==> NotSplit(dir, a, b, c)
  }

  ghost predicate NotSplit(dir: seq<Entry>, a: nat, b: nat, c: nat)
    requires a < b < c < |dir|
  {
    dir[a].typ == dir[c].typ ==> dir[b].typ == dir[a].typ
  }

  ghost predicate ZeroBasedAscending(dir: seq<Entry>) {
    forall r :: 0 <= r < |dir| ==> Continues(dir, r)
  }

  ghost predicate Continues(dir: seq<Entry>, r: nat)
    requires r < |dir|
  {
    dir[r].idx == if r > 0 && dir[r - 1].typ == dir[r].typ then dir[r - 1].idx + 1 else 0
  }

  ghost predicate Addressable(dir: seq<Entry>) {
    && dir != []
    && OneRunPerType(dir)
    && ZeroBasedAscending(dir)
    && forall r :: 0 <= r < |dir| ==> dir[r].typ < 256
  }

  /** `l1` is the level-1 view of `dir`: a power-of-two table whose runs are exactly the directory. */
  ghost predicate IsLevel1Of(l1: Level1, dir: seq<Entry>) {
    && l1.aw >= 1
    && l1.n == |l1.cnt| == |l1.row| == Pow2(l1.aw)
    && (forall r :: 0 <= r < |dir| ==> InRun(l1, dir, r))
    && (forall t :: 0 <= t < l1.n ==> if l1.cnt[t] == 0 then l1.row[t] == 0 else RunOfType(l1, dir, t))
    && (l1.aw > 1 ==> exists r :: 0 <= r < |dir| && dir[r].typ >= Pow2(l1.aw - 1))
  }

  ghost predicate InRun(l1: Level1, dir: seq<Entry>, r: nat)
    requires l1.n == |l1.cnt| == |l1.row| && r < |dir|
  {
    var t := dir[r].typ;
    t < l1.n && l1.row[t] <= r < l1.row[t] + l1.cnt[t] && dir[r].idx == r - l1.row[t]
  }

  ghost predicate RunOfType(l1: Level1, dir: seq<Entry>, t: nat)
    requires l1.n == |l1.cnt| == |l1.row| && t < l1.n
  {
    && l1.row[t] + l1.cnt[t] <= |dir|
    && forall r :: l1.row[t] <= r < l1.row[t] + l1.cnt[t] ==> dir[r].typ == t
  }

  // ----- building the table

  /** The `runs` dict: type -> (first row, row count so far). */
  type Runs = map<nat, (nat, nat)>

  ghost predicate RunsOf(runs: Runs, dir: seq<Entry>) {
    && (forall r :: 0 <= r < |dir| ==> RowInRuns(runs, dir, r))
    && (forall t :: t in runs ==>
          runs[t].1 > 0 && runs[t].0 + runs[t].1 <= |dir|
          && forall r :: runs[t].0 <= r < runs[t].0 + runs[t].1 ==> dir[r].typ == t)
  }

  ghost predicate RowInRuns(runs: Runs, dir: seq<Entry>, r: nat)
    requires r < |dir|
  {
    var t := dir[r].typ;
    t in runs && runs[t].0 <= r < runs[t].0 + runs[t].1 && dir[r].idx == r - runs[t].0
  }

  /** Whether the next row may join the runs: it opens a new run at 0 or continues the open one. */
  predicate Joins(runs: Runs, prev: Option<nat>, e: Entry) {
    if e.typ in runs then prev == Some(e.typ) && e.idx == runs[e.typ].1 else e.idx == 0
  }

  function LastType(dir: seq<Entry>): Option<nat> {
    if dir == [] then None else Some(dir[|dir| - 1].typ)
  }

  function Extend(runs: Runs, row: nat, t: nat): Runs {
    if t in runs then runs[t := (runs[t].0, runs[t].1 + 1)] else runs[t := (row, 1)]
  }

  /** What the loop knows about the rows read so far. */
  ghost predicate Scanned(runs: Runs, pre: seq<Entry>) {
    RunsOf(runs, pre) && OneRunPerType(pre) && ZeroBasedAscending(pre)
  }

  lemma {:induction false} JoinKeepsRuns(runs: Runs, pre: seq<Entry>, e: Entry)
    requires RunsOf(runs, pre) && Joins(runs, LastType(pre), e)
    ensures RunsOf(Extend(runs, |pre|, e.typ), pre + [e])
  {
    var next, grown := pre + [e], Extend(runs, |pre|, e.typ);
    if e.typ in runs {
      assert RowInRuns(runs, pre, |pre| - 1);
    }
    forall r | 0 <= r < |next| ensures RowInRuns(grown, next, r) {
      if r < |pre| {
        assert RowInRuns(runs, pre, r);
      }
    }
  }

  lemma {:induction false} JoinKeepsLayout(runs: Runs, pre: seq<Entry>, e: Entry)
    requires Scanned(runs, pre) && Joins(runs, LastType(pre), e)
    ensures OneRunPerType(pre + [e]) && ZeroBasedAscending(pre + [e])
  {
    var next, n := pre + [e], |pre|;
    if n > 0 {
      assert RowInRuns(runs, pre, n - 1);
    }
    forall r | 0 <= r < |next| ensures Continues(next, r) {
      if r < n {
        assert Continues(pre, r);
      }
    }
    forall a, b, c | 0 <= a < b < c < |next| ensures NotSplit(next, a, b, c) {
      if c < n {
        assert NotSplit(pre, a, b, c);
      } else {
        assert RowInRuns(runs, pre, a);
      }
    }
  }

  lemma {:induction false} RefusedRowBreaksLayout(runs: Runs, pre: seq<Entry>, e: Entry)
    requires RunsOf(runs, pre) && !Joins(runs, LastType(pre), e)
    ensures !(OneRunPerType(pre + [e]) && ZeroBasedAscending(pre + [e]))
  {
    var next, n := pre + [e], |pre|;
    if e.typ in runs {
      assert pre[runs[e.typ].0].typ == e.typ;
    }
    if n > 0 {
      assert RowInRuns(runs, pre, n - 1);
    }
    if e.typ in runs && LastType(pre) != Some(e.typ) {
      assert !NotSplit(next, runs[e.typ].0, n - 1, n);
    } else {
      assert !Continues(next, n);
    }
  }

  lemma {:induction false} LayoutOfPrefix(dir: seq<Entry>, k: nat)
    requires k <= |dir| && OneRunPerType(dir) && ZeroBasedAscending(dir)
    ensures OneRunPerType(dir[..k]) && ZeroBasedAscending(dir[..k])
  {
    forall r | 0 <= r < k ensures Continues(dir[..k], r) {
      assert Continues(dir, r);
    }
    forall a, b, c | 0 <= a < b < c < k ensures NotSplit(dir[..k], a, b, c) {
      assert NotSplit(dir, a, b, c);
    }
  }

  /** The finished dict, laid out as the zero-padded table. */
  function TableOf(runs: Runs, maxT: nat): Level1 {
    var aw := if BitLength(maxT) > 1 then BitLength(maxT) else 1;
    var n := Pow2(aw);
    Level1(aw, n,
           seq(n, t requires 0 <= t < n => if t in runs then runs[t].1 else 0),
           seq(n, t requires 0 <= t < n => if t in runs then runs[t].0 else 0))
  }

  lemma {:induction false} TableOfRuns(runs: Runs, dir: seq<Entry>)
    requires Scanned(runs, dir) && dir != []
    ensures runs.Keys != {}
    ensures IsLevel1Of(TableOf(runs, Greatest(runs.Keys)), dir)
    ensures Greatest(runs.Keys) < 256 <==> Addressable(dir)
  {
    assert RowInRuns(runs, dir, 0);
    var maxT := Greatest(runs.Keys);
    var l1 := TableOf(runs, maxT);
    assert maxT < l1.n;
    forall r | 0 <= r < |dir| ensures InRun(l1, dir, r) && dir[r].typ <= maxT {
      assert RowInRuns(runs, dir, r);
    }
    assert dir[runs[maxT].0].typ == maxT;
  }

  /** One pass of the loop: a row that joins keeps what is known, a refused one is fatal for the directory. */
  lemma {:induction false} RowStep(runs: Runs, dir: seq<Entry>, row: nat)
    requires row < |dir| && Scanned(runs, dir[..row])
    ensures Joins(runs, LastType(dir[..row]), dir[row]) ==> Scanned(Extend(runs, row, dir[row].typ), dir[..row + 1])
    ensures !Joins(runs, LastType(dir[..row]), dir[row]) ==> !Addressable(dir)
  {
    assert dir[..row + 1] == dir[..row] + [dir[row]];
    if Joins(runs, LastType(dir[..row]), dir[row]) {
      JoinKeepsRuns(runs, dir[..row], dir[row]);
      JoinKeepsLayout(runs, dir[..row], dir[row]);
    } else {
      RefusedRowBreaksLayout(runs, dir[..row], dir[row]);
      if Addressable(dir) {
        LayoutOfPrefix(dir, row + 1);
      }
    }
  }

  method TwoLevelDirectory(dir: seq<Entry>) returns (res: Result<Level1>)
    ensures res.Ok? <==> Addressable(dir)
    ensures res.Ok? ==> IsLevel1Of(res.value, dir)
  {
    var runs: Runs := map[];
    var prev: Option<nat> := None;
    for row := 0 to |dir|
      invariant Scanned(runs, dir[..row]) && prev == LastType(dir[..row])
    {
      var e := dir[row];
      RowStep(runs, dir, row);
      ghost var before := runs;
      if e.typ !in runs {
        runs := runs[e.typ := (row, 0)];
      } else if prev != Some(e.typ) {
        return Err; // re-opens a closed run
      }
      if e.idx != runs[e.typ].1 {
        return Err; // not zero-based ascending
      }
      runs := runs[e.typ := (runs[e.typ].0, runs[e.typ].1 + 1)];
      assert runs == Extend(before, row, e.typ);
      prev := Some(e.typ);
    }
    assert dir[..|dir|] == dir;
    if dir == [] {
      return Err; // max() of an empty dict
    }
    TableOfRuns(runs, dir);
    var maxT := Greatest(runs.Keys);
    if maxT >= 256 {
      return Err;
    }
    return Ok(TableOf(runs, maxT));
  }

  // ----- the two ways of answering

  function Resolve(l1: Level1, dir: seq<Entry>, t: nat, i: nat): Answer {
    if t >= l1.n then Miss
    else if t >= |l1.cnt| || t >= |l1.row| then Crash
    else if i >= l1.cnt[t] then Miss
    else if l1.row[t] + i >= |dir| then Crash
    else Hit(dir[l1.row[t] + i].base, dir[l1.row[t] + i].length)
  }

  /** The scan keeps overwriting its answer, so the last matching row wins. */
  function Linear(dir: seq<Entry>, t: nat, i: nat): Answer {
    if dir == [] then Miss
    else
      var last := dir[|dir| - 1];
      if last.typ == t && last.idx == i then Hit(last.base, last.length)
      else Linear(dir[..|dir| - 1], t, i)
  }

  method LinearScan(dir: seq<Entry>, t: nat, i: nat) returns (f: Answer)
    ensures f == Linear(dir, t, i)
  {
    f := Miss;
    for k := 0 to |dir|
      invariant f == Linear(dir[..k], t, i)
    {
      assert dir[..k + 1][..k] == dir[..k];
      if dir[k].typ == t && dir[k].idx == i {
        f := Hit(dir[k].base, dir[k].length);
      }
    }
    assert dir[..|dir|] == dir;
  }

  /** A key the scan misses is one no row carries, and a hit is some row carrying it. */
  lemma {:induction false} LinearMeaning(dir: seq<Entry>, t: nat, i: nat)
    ensures Linear(dir, t, i) != Crash
    ensures Linear(dir, t, i) == Miss <==> forall r :: 0 <= r < |dir| ==> !(dir[r].typ == t && dir[r].idx == i)
    ensures Linear(dir, t, i).Hit? ==>
              exists r :: 0 <= r < |dir| && dir[r].typ == t && dir[r].idx == i
                          && Linear(dir, t, i) == Hit(dir[r].base, dir[r].length)
  {
    if dir != [] {
      var n := |dir| - 1;
      LinearMeaning(dir[..n], t, i);
      assert forall r :: 0 <= r < n ==> dir[..n][r] == dir[r];
      if dir[n].typ != t || dir[n].idx != i {
        if Linear(dir[..n], t, i).Hit? {
          var r :| 0 <= r < n && dir[..n][r].typ == t && dir[..n][r].idx == i
                   && Linear(dir[..n], t, i) == Hit(dir[..n][r].base, dir[..n][r].length);
          assert dir[r].typ == t;
        }
      }
    }
  }

  ghost predicate Agrees(l1: Level1, dir: seq<Entry>, t: nat, i: nat) {
    Resolve(l1, dir, t, i) == Linear(dir, t, i)
  }

  /** The two lookups answer alike on every natural key. */
  ghost predicate Equivalent(l1: Level1, dir: seq<Entry>) {
    forall t: nat, i: nat :: Agrees(l1, dir, t, i)
  }

  /** A level-1 view answers every key, hit or miss, as the scan does. */
  lemma {:induction false} Level1IsExact(l1: Level1, dir: seq<Entry>)
    requires IsLevel1Of(l1, dir)
    ensures Equivalent(l1, dir)
  {
    forall t: nat, i: nat ensures Agrees(l1, dir, t, i) {
      LinearMeaning(dir, t, i);
      if t < l1.n && i < l1.cnt[t] {
        assert RunOfType(l1, dir, t);
        var r := l1.row[t] + i;
        assert InRun(l1, dir, r);
        assert dir[r].typ == t && dir[r].idx == i;
        forall q | 0 <= q < |dir| && dir[q].typ == t && dir[q].idx == i ensures q == r {
          assert InRun(l1, dir, q);
        }
      } else {
        forall q | 0 <= q < |dir| ensures !(dir[q].typ == t && dir[q].idx == i) {
          assert InRun(l1, dir, q);
        }
      }
    }
  }

  // ----- the probe fence

  /** What the fence needs to probe: every row, the index after it, and index 0 of every table slot. */
  ghost predicate Fenced(l1: Level1, dir: seq<Entry>, probes: set<(nat, nat)>) {
    && (forall r :: 0 <= r < |dir| ==> RowFenced(dir, probes, r))
    && (forall t :: 0 <= t < l1.n ==> (t, 0) in probes)
  }

  ghost predicate RowFenced(dir: seq<Entry>, probes: set<(nat, nat)>, r: nat)
    requires r < |dir|
  {
    (dir[r].typ, dir[r].idx) in probes && (dir[r].typ, dir[r].idx + 1) in probes
  }

  /**
   The finite fence is exact: agreement on the probes is agreement on every natural key, for
   any table and any directory whatever. Along a run, a structural hit at i forces a row at i,
   whose successor is itself a probe.
   */
  lemma {:induction false} FenceIsExact(l1: Level1, dir: seq<Entry>, probes: set<(nat, nat)>)
    requires Fenced(l1, dir, probes)
    requires forall k :: k in probes ==> Agrees(l1, dir, k.0, k.1)
    ensures Equivalent(l1, dir)
  {
    forall t: nat, i: nat ensures Agrees(l1, dir, t, i) {
      LinearMeaning(dir, t, i);
      if t < l1.n {
        assert (t, 0) in probes;
        assert Agrees(l1, dir, (t, 0).0, (t, 0).1);
        LinearMeaning(dir, t, 0);
        if i < l1.cnt[t] {
          RunIsProbed(l1, dir, probes, t, i);
          assert Agrees(l1, dir, (t, i).0, (t, i).1);
        }
      }
      if Linear(dir, t, i).Hit? {
        var r :| 0 <= r < |dir| && dir[r].typ == t && dir[r].idx == i;
        assert RowFenced(dir, probes, r);
        assert Agrees(l1, dir, (t, i).0, (t, i).1);
      }
    }
  }

  lemma {:induction false} RunIsProbed(l1: Level1, dir: seq<Entry>, probes: set<(nat, nat)>, t: nat, i: nat)
    requires Fenced(l1, dir, probes)
    requires forall k :: k in probes ==> Agrees(l1, dir, k.0, k.1)
    requires t < l1.n && t < |l1.cnt| && i < l1.cnt[t]
    ensures (t, i) in probes
    decreases i
  {
    if i == 0 {
      assert (t, 0) in probes;
    } else {
      RunIsProbed(l1, dir, probes, t, i - 1);
      assert Agrees(l1, dir, (t, i - 1).0, (t, i - 1).1);
      var r := HitIsARow(l1, dir, t, i - 1);
      assert RowFenced(dir, probes, r);
    }
  }

  /** Where the two lookups agree, a structural hit is backed by a row carrying that key. */
  lemma {:induction false} HitIsARow(l1: Level1, dir: seq<Entry>, t: nat, i: nat) returns (r: nat)
    requires Agrees(l1, dir, t, i)
    requires t < l1.n && t < |l1.cnt| && i < l1.cnt[t]
    ensures r < |dir| && dir[r].typ == t && dir[r].idx == i
  {
    LinearMeaning(dir, t, i);
    r :| 0 <= r < |dir| && dir[r].typ == t && dir[r].idx == i;
  }

  /** The gate: it passes exactly when the two lookups answer alike on every key there is. */
  method CheckTwoLevel(l1: Level1, dir: seq<Entry>) returns (pass: bool)
    ensures pass <==> Equivalent(l1, dir)
  {
    var probes: set<(nat, nat)> := {};
    for r := 0 to |dir|
      invariant forall q :: 0 <= q < r ==> RowFenced(dir, probes, q)
    {
      var t, i := dir[r].typ, dir[r].idx;
      ghost var before := probes;
      probes := probes + {(t, i), (t, i + 1), (t, 0xFFFF)};
      forall q | 0 <= q < r ensures RowFenced(dir, probes, q) {
        assert RowFenced(dir, before, q);
      }
    }
    for t := 0 to l1.n + 4
      invariant forall q :: 0 <= q < |dir| ==> RowFenced(dir, probes, q)
      invariant forall u :: 0 <= u < t ==> (u, 0) in probes
    {
      ghost var before := probes;
      probes := probes + {(t, 0), (t, 1)};
      forall q | 0 <= q < |dir| ensures RowFenced(dir, probes, q) {
        assert RowFenced(dir, before, q);
      }
    }
    ghost var before := probes;
    probes := probes + {(0xFFFF, 0)};
    forall q | 0 <= q < |dir| ensures RowFenced(dir, probes, q) {
      assert RowFenced(dir, before, q);
    }
    var rest := probes;
    while rest != {}
      invariant forall k :: k in probes && k !in rest ==> Agrees(l1, dir, k.0, k.1)
      decreases |rest|
    {
      var k :| k in rest;
      rest := rest - {k};
      var want := LinearScan(dir, k.0, k.1);
      var got := Resolve(l1, dir, k.0, k.1);
      if got != want {
        assert !Agrees(l1, dir, k.0, k.1);
        return false;
      }
    }
    FenceIsExact(l1, dir, probes);
    return true;
  }
}
