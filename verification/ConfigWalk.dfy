/**
 The class-Y ownership scan (scripts/check_baremetal_only.py, `_is_false` and the `walk` nested
 in `scan_config`). A parsed document is an object graph, possibly cyclic through YAML aliases:
 containers live in a heap keyed by identity, and `seen` holds the identities on the current path.
 */
module ConfigWalk {
  import opened Sequences

  datatype Value =
    | Null
    | Bool(b: bool)
    | Number(r: real)
    | Text(s: string)
    | Other
    | Ref(id: nat)

  datatype Container = Mapping(entries: seq<(string, Value)>) | List(elements: seq<Value>) {
    function Arity(): nat {
      if Mapping? then |entries| else |elements|
    }

    function Child(i: nat): Value
      requires i < Arity()
    {
      if Mapping? then entries[i].1 else elements[i]
    }
  }

  ghost predicate Closed(g: map<nat, Container>) {
    forall id, i :: id in g && 0 <= i < g[id].Arity() ==> Known(g, g[id].Child(i))
  }

  /** A reference always names a live container. */
  ghost predicate Known(g: map<nat, Container>, v: Value) {
    v.Ref? ==> v.id in g
  }

  type Graph = g: map<nat, Container> | Closed(g) witness map[]

  // ----- the ownership test

  /** What `str.strip` removes. */
  predicate IsSpace(c: char) {
    var code := c as int;
    || 9 <= code <= 13 || 28 <= code <= 32 || code == 0x85 || code == 0xA0 || code == 0x1680
    || 0x2000 <= code <= 0x200A || code == 0x2028 || code == 0x2029 || code == 0x202F || code == 0x205F || code == 0x3000
  }

  function Strip(s: string): string {
    if s != [] && IsSpace(s[0]) then Strip(s[1..])
    else if s != [] && IsSpace(s[|s| - 1]) then Strip(s[..|s| - 1])
    else s
  }

  function Lower(s: string): string {
    seq(|s|, i requires 0 <= i < |s| => if 'A' <= s[i] <= 'Z' then (s[i] as int + 32) as char else s[i])
  }

  const FALSE_SCALARS: set<string> :=
    {"false", "no", "off", "n", "0", "~", "null", "none", "disabled", "disable", ""}

  predicate IsFalse(g: Graph, v: Value)
    requires Known(g, v)
  {
    match v
    case Null => true
    case Bool(b) => !b
    case Number(r) => r == 0.0
    case Text(s) => Lower(Strip(s)) in FALSE_SCALARS
    case Other => false
    case Ref(id) => g[id].Arity() == 0
  }

  /** Entry i of this container disowns the fabric plane. */
  predicate Disowns(g: Graph, id: nat, i: nat)
    requires id in g && i < g[id].Arity()
  {
    g[id].Mapping? && Lower(Strip(g[id].entries[i].0)) == "fabric_gptp" && IsFalse(g, g[id].Child(i))
  }

  // ----- the test, in words

  /** The white space characters, one by one. */
  ghost predicate White(c: char) {
    c as int in {9, 10, 11, 12, 13, 28, 29, 30, 31, 32, 133, 160, 5760, 8192, 8193, 8194, 8195, 8196, 8197, 8198, 8199,
                 8200, 8201, 8202, 8232, 8233, 8239, 8287, 12288}
  }

  ghost predicate Blank(s: string) {
    forall i :: 0 <= i < |s| ==> White(s[i])
  }

  /** A letter of w may be capital in s. */
  ghost predicate CaseVariant(s: string, w: string) {
    |s| == |w| && forall i :: 0 <= i < |s| ==> s[i] == w[i] || ('a' <= w[i] <= 'z' && s[i] as int == w[i] as int - 32)
  }

  /** Blanks, a case variant of w, blanks. */
  ghost predicate Spells(s: string, w: string) {
    exists i, j :: 0 <= i <= j <= |s| && SpellsAt(s, w, i, j)
  }

  ghost predicate SpellsAt(s: string, w: string, i: nat, j: nat)
    requires i <= j <= |s|
  {
    Blank(s[..i]) && CaseVariant(s[i..j], w) && Blank(s[j..])
  }

  ghost predicate SpellsFalse(s: string) {
    || Spells(s, "false") || Spells(s, "no") || Spells(s, "off") || Spells(s, "n") || Spells(s, "0") || Spells(s, "~")
    || Spells(s, "null") || Spells(s, "none") || Spells(s, "disabled") || Spells(s, "disable") || Spells(s, "")
  }

  /** None, False, zero, an empty container, or a text that spells one of the eleven words. */
  ghost predicate FalseLike(g: Graph, v: Value) {
    || v == Null || v == Bool(false) || v == Number(0.0)
    || (v.Ref? && v.id in g && (g[v.id] == Mapping([]) || g[v.id] == List([])))
    || (v.Text? && SpellsFalse(v.s))
  }

  /** Entry i of this container names the fabric plane and is false-like. */
  ghost predicate Violating(g: Graph, id: nat, i: nat) {
    && id in g && g[id].Mapping? && i < |g[id].entries|
    && Spells(g[id].entries[i].0, "fabric_gptp") && FalseLike(g, g[id].entries[i].1)
  }

  ghost predicate LowerCase(w: string) {
    forall i :: 0 <= i < |w| ==> 33 <= w[i] as int <= 64 || 91 <= w[i] as int <= 126
  }

  lemma {:induction false} SpacesAreSpaces(c: char)
    ensures IsSpace(c) <==> White(c)
  {
  }

  ghost predicate AllSpace(s: string) {
    forall i :: 0 <= i < |s| ==> IsSpace(s[i])
  }

  lemma {:induction false} AllSpaceIsBlank(s: string)
    ensures AllSpace(s) <==> Blank(s)
  {
    forall i | 0 <= i < |s| ensures IsSpace(s[i]) <==> White(s[i]) {
      SpacesAreSpaces(s[i]);
    }
  }

  /** s splits at i and j into spaces, a text with none at its ends, and spaces. */
  ghost predicate Splits(s: string, i: nat, j: nat) {
    && i <= j <= |s|
    && (forall k :: 0 <= k < i ==> IsSpace(s[k])) && (forall k :: j <= k < |s| ==> IsSpace(s[k]))
    && (i < j ==> !IsSpace(s[i]) && !IsSpace(s[j - 1]))
  }

  lemma {:induction false} SplitsBehind(s: string, i: nat, j: nat)
    requires s != [] && IsSpace(s[0]) && Splits(s[1..], i, j)
    ensures Splits(s, i + 1, j + 1) && s[1..][i..j] == s[i + 1..j + 1]
  {
  }

  lemma {:induction false} SplitsBefore(s: string, i: nat, j: nat)
    requires s != [] && IsSpace(s[|s| - 1]) && Splits(s[..|s| - 1], i, j)
    ensures Splits(s, i, j) && s[..|s| - 1][i..j] == s[i..j]
  {
  }

  /** Stripping splits off spaces on both sides and leaves none at the ends. */
  lemma {:induction false} StripSplits(s: string) returns (i: nat, j: nat)
    ensures Splits(s, i, j) && Strip(s) == s[i..j]
    decreases |s|
  {
    if s != [] && IsSpace(s[0]) {
      i, j := StripSplits(s[1..]);
      SplitsBehind(s, i, j);
      i, j := i + 1, j + 1;
    } else if s != [] && IsSpace(s[|s| - 1]) {
      i, j := StripSplits(s[..|s| - 1]);
      SplitsBefore(s, i, j);
    } else {
      i, j := 0, |s|;
    }
  }

  /** Two ways of splitting off blanks agree on what is left, when neither leaves a blank at an end. */
  lemma {:induction false} SplitIsUnique(s: string, i: nat, j: nat, k: nat, l: nat)
    requires i <= j <= |s| && k <= l <= |s|
    requires Blank(s[..i]) && Blank(s[j..]) && Blank(s[..k]) && Blank(s[l..])
    requires i < j ==> !White(s[i]) && !White(s[j - 1])
    requires k < l ==> !White(s[k]) && !White(s[l - 1])
    ensures s[i..j] == s[k..l]
  {
    if i < j {
      InSplit(s, k, l, i);
      InSplit(s, k, l, j - 1);
    }
    if k < l {
      InSplit(s, i, j, k);
      InSplit(s, i, j, l - 1);
    }
  }

  lemma {:induction false} InSplit(s: string, i: nat, j: nat, x: nat)
    requires i <= j <= |s| && x < |s| && Blank(s[..i]) && Blank(s[j..])
    ensures White(s[x]) || i <= x < j
  {
    if x < i {
      assert s[..i][x] == s[x];
    } else if j <= x {
      assert s[j..][x - j] == s[x];
    }
  }

  lemma {:induction false} LowerMeaning(s: string, w: string)
    requires LowerCase(w)
    ensures Lower(s) == w <==> CaseVariant(s, w)
  {
    if CaseVariant(s, w) {
      forall i | 0 <= i < |s| ensures Lower(s)[i] == w[i] {
      }
    }
    if Lower(s) == w {
      forall i | 0 <= i < |s| ensures s[i] == w[i] || ('a' <= w[i] <= 'z' && s[i] as int == w[i] as int - 32) {
        assert Lower(s)[i] == w[i];
      }
    }
  }

  lemma {:induction false} VariantHasNoBlank(s: string, w: string, i: nat)
    requires LowerCase(w) && CaseVariant(s, w) && i < |s|
    ensures !White(s[i])
  {
  }

  /** Stripped and lowered, a text is w exactly when it spells w. */
  lemma {:induction false} SpellsExactly(s: string, w: string)
    requires LowerCase(w)
    ensures Lower(Strip(s)) == w <==> Spells(s, w)
  {
    var i, j := StripSplits(s);
    AllSpaceIsBlank(s[..i]);
    AllSpaceIsBlank(s[j..]);
    LowerMeaning(Strip(s), w);
    if Lower(Strip(s)) == w {
      assert SpellsAt(s, w, i, j);
    }
    if k, l :| 0 <= k <= l <= |s| && SpellsAt(s, w, k, l) {
      if k < l {
        VariantHasNoBlank(s[k..l], w, 0);
        VariantHasNoBlank(s[k..l], w, l - k - 1);
      }
      if i < j {
        SpacesAreSpaces(s[i]);
        SpacesAreSpaces(s[j - 1]);
      }
      SplitIsUnique(s, i, j, k, l);
    }
  }

  lemma {:induction false} FalseWords(t: string)
    ensures t in FALSE_SCALARS <==>
            || t == "false" || t == "no" || t == "off" || t == "n" || t == "0" || t == "~"
            || t == "null" || t == "none" || t == "disabled" || t == "disable" || t == ""
  {
  }

  lemma {:induction false} FalseTextExactly(s: string)
    ensures Lower(Strip(s)) in FALSE_SCALARS <==> SpellsFalse(s)
  {
    FalseWords(Lower(Strip(s)));
    SpellsExactly(s, "false");
    SpellsExactly(s, "no");
    SpellsExactly(s, "off");
    SpellsExactly(s, "n");
    SpellsExactly(s, "0");
    SpellsExactly(s, "~");
    SpellsExactly(s, "null");
    SpellsExactly(s, "none");
    SpellsExactly(s, "disabled");
    SpellsExactly(s, "disable");
    SpellsExactly(s, "");
  }

  /** The test accepts exactly the violating entries, whatever the spelling of key and value. */
  lemma {:induction false} DisownsExactly(g: Graph, id: nat, i: nat)
    requires id in g && i < g[id].Arity()
    ensures Disowns(g, id, i) <==> Violating(g, id, i)
  {
    if g[id].Mapping? {
      SpellsExactly(g[id].entries[i].0, "fabric_gptp");
      var v := g[id].Child(i);
      if v.Text? {
        FalseTextExactly(v.s);
      }
    }
  }

  // ----- the walk

  /** Following positions p from v leads, through containers all distinct and not in `seen`, to a hit. */
  ghost predicate HitAt(g: Graph, v: Value, seen: set<nat>, p: seq<nat>)
    decreases |p|
  {
    && v.Ref? && v.id in g && v.id !in seen
    && p != [] && p[0] < g[v.id].Arity()
    && if |p| == 1 then Violating(g, v.id, p[0])
       else HitAt(g, g[v.id].Child(p[0]), seen + {v.id}, p[1..])
  }

  ghost predicate Reported(g: Graph, v: Value, crumb: seq<nat>, seen: set<nat>, h: seq<nat>) {
    crumb <= h && HitAt(g, v, seen, h[|crumb|..])
  }

  /** A reported crumb is this entry itself, or a hit under its child. */
  lemma {:induction false} ReportedCases(g: Graph, id: nat, i: nat, crumb: seq<nat>, seen: set<nat>, h: seq<nat>)
    requires id in g && id !in seen && i < g[id].Arity()
    ensures Reported(g, Ref(id), crumb, seen, h) && h[|crumb|] == i <==>
            (h == crumb + [i] && Violating(g, id, i)) || Reported(g, g[id].Child(i), crumb + [i], seen + {id}, h)
  {
    if crumb <= h && |h| > |crumb| && h[|crumb|] == i {
      assert crumb + [i] <= h;
      assert h[|crumb|..][1..] == h[|crumb + [i]|..];
      if |h| == |crumb| + 1 {
        assert h == crumb + [i];
        assert h[|crumb + [i]|..] == [];
      }
    } else if crumb + [i] <= h {
      assert false;
    }
  }

  /**
   Terminates on any graph, cyclic or not, because every step into a container removes it from
   those not yet on the path; and reports each hit on each container-distinct path exactly once.
   */
  method Walk(g: Graph, node: Value, crumb: seq<nat>, seen: set<nat>) returns (hits: seq<seq<nat>>)
    requires Known(g, node)
    ensures forall h :: h in hits <==> Reported(g, node, crumb, seen, h)
    ensures Distinct(hits)
    decreases g.Keys - seen
  {
    hits := [];
    if !node.Ref? || node.id in seen {
      return;
    }
    var id := node.id;
    var path := seen + {id};
    assert g.Keys - path < g.Keys - seen by {
      assert id in g.Keys - seen && id !in g.Keys - path;
    }
    for i := 0 to g[id].Arity()
      invariant forall h :: h in hits <==> Reported(g, node, crumb, seen, h) && h[|crumb|] < i
      invariant Distinct(hits)
    {
      forall h ensures Reported(g, node, crumb, seen, h) && h[|crumb|] == i <==>
                       (h == crumb + [i] && Violating(g, id, i)) || Reported(g, g[id].Child(i), crumb + [i], path, h) {
        ReportedCases(g, id, i, crumb, seen, h);
      }
      assert !Reported(g, g[id].Child(i), crumb + [i], path, crumb + [i]);
      ghost var before := hits;
      DisownsExactly(g, id, i);
      if Disowns(g, id, i) {
        hits := hits + [crumb + [i]];
      }
      ghost var own := hits;
      var below := Walk(g, g[id].Child(i), crumb + [i], path);
      hits := hits + below;
      assert forall h :: h in hits <==> h in before || (h == crumb + [i] && Disowns(g, id, i)) || h in below;
      DistinctConcat(own, below);
    }
  }

  // ----- reachability along any path, cycles included

  ghost predicate Edge(g: Graph, a: nat, b: nat) {
    a in g && exists i :: 0 <= i < g[a].Arity() && g[a].Child(i) == Ref(b)
  }

  ghost predicate Trail(g: Graph, ids: seq<nat>) {
    && ids != [] && ids[|ids| - 1] in g
    && forall k :: 0 <= k < |ids| - 1 ==> Edge(g, ids[k], ids[k + 1])
  }

  ghost predicate Reachable(g: Graph, v: Value, id: nat) {
    v.Ref? && exists ids :: Trail(g, ids) && ids[0] == v.id && ids[|ids| - 1] == id
  }

  ghost predicate HasFalseOwner(g: Graph, id: nat) {
    exists i :: Violating(g, id, i)
  }

  /** Some container reachable from v, along any path whatever, disowns the fabric plane. */
  ghost predicate Violates(g: Graph, v: Value) {
    exists id :: Reachable(g, v, id) && HasFalseOwner(g, id)
  }

  lemma {:induction false} HitIsReachable(g: Graph, v: Value, seen: set<nat>, p: seq<nat>) returns (ids: seq<nat>)
    requires HitAt(g, v, seen, p)
    ensures Trail(g, ids) && ids[0] == v.id && HasFalseOwner(g, ids[|ids| - 1])
    decreases |p|
  {
    if |p| == 1 {
      ids := [v.id];
    } else {
      var rest := HitIsReachable(g, g[v.id].Child(p[0]), seen + {v.id}, p[1..]);
      ids := [v.id] + rest;
      assert Edge(g, v.id, rest[0]);
      forall k | 0 <= k < |ids| - 1 ensures Edge(g, ids[k], ids[k + 1]) {
        assert k > 0 ==> Edge(g, rest[k - 1], rest[k]);
      }
    }
  }

  /**
   Completeness: a trail avoiding `seen` yields a hit the walk can see, although it revisits
   nothing. A trail that comes back to its first container is cut to its last visit there.
   */
  lemma {:induction false} TrailHasHit(g: Graph, ids: seq<nat>, seen: set<nat>) returns (p: seq<nat>)
    requires Trail(g, ids) && HasFalseOwner(g, ids[|ids| - 1])
    requires forall x :: x in ids ==> x !in seen
    ensures HitAt(g, Ref(ids[0]), seen, p)
    decreases |ids|
  {
    var tail := ids[1..];
    if |ids| == 1 {
      var i :| Violating(g, ids[0], i);
      p := [i];
    } else {
      forall k | 0 <= k < |tail| - 1 ensures Edge(g, tail[k], tail[k + 1]) {
        assert Edge(g, ids[k + 1], ids[k + 2]);
      }
      if ids[0] in tail {
        var j :| 0 <= j < |tail| && tail[j] == ids[0];
        p := TrailHasHit(g, tail[j..], seen);
      } else {
        var q := TrailHasHit(g, tail, seen + {ids[0]});
        assert Edge(g, ids[0], ids[1]);
        var i :| 0 <= i < g[ids[0]].Arity() && g[ids[0]].Child(i) == Ref(ids[1]);
        p := [i] + q;
        assert p[1..] == q;
      }
    }
  }

  ghost predicate HasHit(g: Graph, v: Value) {
    exists p :: HitAt(g, v, {}, p)
  }

  /** The path-local cycle guard loses nothing: simple-path hits exist exactly when a violation is reachable. */
  lemma {:induction false} WalkSeesEveryViolation(g: Graph, v: Value)
    ensures HasHit(g, v) <==> Violates(g, v)
  {
    if p :| HitAt(g, v, {}, p) {
      var ids := HitIsReachable(g, v, {}, p);
      assert Reachable(g, v, ids[|ids| - 1]);
    }
    if id :| Reachable(g, v, id) && HasFalseOwner(g, id) {
      var ids :| Trail(g, ids) && ids[0] == v.id && ids[|ids| - 1] == id;
      var p := TrailHasHit(g, ids, {});
      assert v == Ref(ids[0]);
      assert HitAt(g, v, {}, p);
    }
  }

  /** The scan over a file's documents reports a finding exactly when some document violates. */
  method ScanDocuments(g: Graph, docs: seq<Value>) returns (hits: seq<seq<nat>>)
    requires forall d :: d in docs ==> Known(g, d)
    ensures hits != [] <==> exists d :: d in docs && Violates(g, d)
  {
    hits := [];
    for k := 0 to |docs|
      invariant hits != [] <==> exists d :: d in docs[..k] && Violates(g, d)
    {
      assert docs[..k + 1] == docs[..k] + [docs[k]];
      WalkSeesEveryViolation(g, docs[k]);
      var found := Walk(g, docs[k], [], {});
      if found != [] {
        assert found[0] in found;
        assert found[0][0..] == found[0];
        assert HitAt(g, docs[k], {}, found[0]);
      } else if p :| HitAt(g, docs[k], {}, p) {
        assert p[0..] == p;
        assert Reported(g, docs[k], [], {}, p);
        assert false;
      }
      assert found != [] <==> Violates(g, docs[k]);
      hits := hits + found;
    }
    assert docs[..|docs|] == docs;
  }
}
