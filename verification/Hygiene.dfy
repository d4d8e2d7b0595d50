/**
 The byte-level source repairer and the scanner it answers to
 (scripts/check_hygiene.py, `fix_bytes`, `has_trailing_ws` and `scan_bytes`).
 */
module Hygiene {
  import opened Octets

  const BOM: Bytes := [0xEF, 0xBB, 0xBF]
  const LF: byte := 10
  const CR: byte := 13

  predicate Blank(b: byte) {
    b == 32 || b == 9
  }

  // ----- the byte-string operations both sides are written in

  /** `raw.replace(b"\r\n", b"\n")` */
  function Unix(s: Bytes): Bytes {
    if |s| < 2 then s
    else if s[0] == CR && s[1] == LF then [LF] + Unix(s[2..])
    else [s[0]] + Unix(s[1..])
  }

  /** `raw.split(b"\n")` */
  function Lines(s: Bytes): (ls: seq<Bytes>)
    ensures |ls| > 0
  {
    if s == [] then [[]]
    else
      var rest := Lines(s[1..]);
      if s[0] == LF then [[]] + rest else [[s[0]] + rest[0]] + rest[1..]
  }

  /** `b"\n".join(lines)` */
  function Join(ls: seq<Bytes>): Bytes
    requires |ls| > 0
  {
    if |ls| == 1 then ls[0] else ls[0] + [LF] + Join(ls[1..])
  }

  /** `l.rstrip(b" \t")` */
  function RStrip(l: Bytes): (r: Bytes)
    ensures r <= l
    ensures r != [] ==> !Blank(r[|r| - 1])
    ensures forall i :: |r| <= i < |l| ==> Blank(l[i])
  {
    if l != [] && Blank(l[|l| - 1]) then RStrip(l[..|l| - 1]) else l
  }

  /** `line.rstrip(b"\r")` */
  function RStripCr(l: Bytes): Bytes {
    if l != [] && l[|l| - 1] == CR then RStripCr(l[..|l| - 1]) else l
  }

  /** `not l.strip(b" \t")` */
  predicate AllBlank(l: Bytes) {
    forall i :: 0 <= i < |l| ==> Blank(l[i])
  }

  /** A blank line keeps its bytes; any other loses its trailing blanks. */
  function StripLine(l: Bytes): Bytes {
    if AllBlank(l) then l else RStrip(l)
  }

  function StripLines(ls: seq<Bytes>): seq<Bytes> {
    seq(|ls|, i requires 0 <= i < |ls| => StripLine(ls[i]))
  }

  predicate EndsWith(s: Bytes, b: byte) {
    s != [] && s[|s| - 1] == b
  }

  function DropBom(raw: Bytes): Bytes {
    if BOM <= raw then raw[|BOM|..] else raw
  }

  function Closed(s: Bytes): Bytes {
    if s != [] && !EndsWith(s, LF) then s + [LF] else s
  }

  function Fixed(raw: Bytes): Bytes {
    Closed(Join(StripLines(Lines(Unix(DropBom(raw))))))
  }

  // ----- the scanner

  datatype Findings = Findings(trailing: nat, missingEof: nat, crlf: nat, bom: nat, tabs: nat)

  const NOTHING := Findings(0, 0, 0, 0, 0)

  /** A line is one LF-split segment, so a CRLF file's lines end in CR. */
  predicate HasTrailingWs(line: Bytes) {
    var body := RStripCr(line);
    !AllBlank(body) && body != RStrip(body)
  }

  function CountTrailing(ls: seq<Bytes>): nat {
    if ls == [] then 0 else (if HasTrailingWs(ls[0]) then 1 else 0) + CountTrailing(ls[1..])
  }

  function CountTabs(ls: seq<Bytes>): nat {
    if ls == [] then 0 else (if 9 in ls[0] then 1 else 0) + CountTabs(ls[1..])
  }

  /** The line's text ends at n in a space or a tab, with something else before it and nothing but CRs behind. */
  ghost predicate TrailsAt(line: Bytes, n: nat) {
    && 0 < n <= |line| && (line[n - 1] == 32 || line[n - 1] == 9)
    && (exists i :: 0 <= i < n && line[i] != 32 && line[i] != 9)
    && forall i :: n <= i < |line| ==> line[i] == 13
  }

  lemma {:induction false} RStripCrMeaning(l: Bytes)
    ensures RStripCr(l) <= l && forall i :: |RStripCr(l)| <= i < |l| ==> l[i] == 13
    ensures RStripCr(l) != [] ==> RStripCr(l)[|RStripCr(l)| - 1] != 13
  {
    if l != [] && l[|l| - 1] == CR {
      RStripCrMeaning(l[..|l| - 1]);
    }
  }

  /** A line is flagged exactly when, its final CRs aside, it says something and then ends in a blank. */
  lemma {:induction false} TrailingWsMeaning(line: Bytes)
    ensures HasTrailingWs(line) <==> exists n: nat :: TrailsAt(line, n)
  {
    var body := RStripCr(line);
    RStripCrMeaning(line);
    if body != [] && Blank(body[|body| - 1]) {
      assert RStrip(body) == RStrip(body[..|body| - 1]);
      assert |RStrip(body)| < |body|;
    }
    if HasTrailingWs(line) {
      assert TrailsAt(line, |body|);
    }
    if n: nat :| TrailsAt(line, n) {
      assert line[n - 1] != 13;
      assert body != [] ==> body[|body| - 1] == line[|body| - 1];
      assert body == line[..n];
    }
  }

  /** The places of the lines that fail a check. */
  function TrailingAt(ls: seq<Bytes>): set<nat> {
    set k | 0 <= k < |ls| && HasTrailingWs(ls[k])
  }

  function TabsAt(ls: seq<Bytes>): set<nat> {
    set k | 0 <= k < |ls| && 9 in ls[k]
  }

  lemma {:induction false} CountsTrailing(ls: seq<Bytes>)
    ensures CountTrailing(ls) == |TrailingAt(ls)|
  {
    if ls != [] {
      CountsTrailing(ls[1..]);
      ShiftedCount(TrailingAt(ls[1..]), TrailingAt(ls), HasTrailingWs(ls[0]));
    }
  }

  lemma {:induction false} CountsTabs(ls: seq<Bytes>)
    ensures CountTabs(ls) == |TabsAt(ls)|
  {
    if ls != [] {
      CountsTabs(ls[1..]);
      ShiftedCount(TabsAt(ls[1..]), TabsAt(ls), 9 in ls[0]);
    }
  }

  /** Moving a set of places up by one, with or without a new first place, counts accordingly. */
  lemma {:induction false} ShiftedCount(rest: set<nat>, all: set<nat>, first: bool)
    requires forall k: nat :: k in all <==> if k == 0 then first else k - 1 in rest
    ensures |all| == |rest| + if first then 1 else 0
    decreases |rest|
  {
    if rest == {} {
      assert all == if first then {0} else {};
    } else {
      var k :| k in rest;
      ShiftedCount(rest - {k}, all - {k + 1}, first);
    }
  }

  predicate ContainsCrlf(s: Bytes) {
    exists i :: 0 <= i < |s| - 1 && s[i] == CR && s[i + 1] == LF
  }

  /** The four fixable defects are absent. */
  ghost predicate ScansClean(raw: Bytes) {
    raw != [] ==>
      && !(BOM <= raw) && !ContainsCrlf(raw) && EndsWith(raw, LF)
      && forall l :: l in Lines(raw) ==> !HasTrailingWs(l)
  }

  lemma {:induction false} NoneCounted(ls: seq<Bytes>)
    ensures CountTrailing(ls) > 0 <==> exists l :: l in ls && HasTrailingWs(l)
    ensures CountTabs(ls) > 0 <==> exists l :: l in ls && 9 in l
  {
    if ls != [] {
      assert ls == [ls[0]] + ls[1..];
      NoneCounted(ls[1..]);
    }
  }

  /**
   `generated` is the banner test and `sv` the suffix test of the path. A file is scanned clean
   exactly when it holds none of the four fixable defects; the two counts are numbers of lines.
   */
  method ScanBytes(raw: Bytes, sv: bool, generated: Bytes -> bool) returns (found: Findings)
    ensures raw == [] || generated(raw) ==> found == NOTHING
    ensures !generated(raw) ==>
              (ScansClean(raw) <==> found.bom == found.crlf == found.missingEof == found.trailing == 0)
    ensures raw != [] && !generated(raw) ==>
              && (found.bom > 0 <==> BOM <= raw)
              && (found.crlf > 0 <==> ContainsCrlf(raw))
              && (found.missingEof > 0 <==> !EndsWith(raw, LF))
              && (found.trailing > 0 <==> exists l :: l in Lines(raw) && HasTrailingWs(l))
              && (found.tabs > 0 <==> sv && exists l :: l in Lines(raw) && 9 in l)
              && found.trailing == |TrailingAt(Lines(raw))|
              && found.tabs == if sv then |TabsAt(Lines(raw))| else 0
  {
    found := NOTHING;
    if raw == [] || generated(raw) {
      return;
    }
    found := found.(bom := if BOM <= raw then 1 else 0);
    found := found.(crlf := if ContainsCrlf(raw) then 1 else 0);
    found := found.(missingEof := if EndsWith(raw, LF) then 0 else 1);
    var lines := Lines(raw);
    NoneCounted(lines);
    CountsTrailing(lines);
    CountsTabs(lines);
    found := found.(trailing := CountTrailing(lines));
    if sv {
      found := found.(tabs := CountTabs(lines));
    }
  }

  // ----- when one repair is enough

  /**
   What the repairer cannot mend in one pass: a second BOM behind the first, or a line of the
   CRLF-converted text that ends, trailing blanks aside, in a CR.
   */
  ghost predicate Repairable(raw: Bytes) {
    var body := DropBom(raw);
    !(BOM <= body) && StripsCleanly(Lines(Unix(body)))
  }

  ghost predicate StripsCleanly(ls: seq<Bytes>) {
    forall l :: l in ls ==> !EndsWith(StripLine(l), CR)
  }

  /** The input class a single-BOM, CRLF-or-LF file belongs to. */
  ghost predicate PlainFile(raw: Bytes) {
    var body := DropBom(raw);
    !(BOM <= body) && forall i :: 0 <= i < |body| && body[i] == CR ==> i + 1 < |body| && body[i + 1] == LF
  }

  // ----- lines and their join

  lemma {:induction false} JoinLines(s: Bytes)
    ensures Join(Lines(s)) == s
  {
    if s != [] {
      JoinLines(s[1..]);
      var rest := Lines(s[1..]);
      if s[0] == LF {
        assert ([[]] + rest)[1..] == rest;
      } else {
        var ls := [[s[0]] + rest[0]] + rest[1..];
        assert |ls| > 1 ==> ls[1..] == rest[1..];
        assert [s[0]] + s[1..] == s;
        if |ls| > 1 {
          assert Join(ls) == [s[0]] + rest[0] + [LF] + Join(rest[1..]);
          assert Join(rest) == rest[0] + [LF] + Join(rest[1..]);
        }
      }
    }
  }

  lemma {:induction false} LinesHaveNoLf(s: Bytes)
    ensures forall l :: l in Lines(s) ==> LF !in l
  {
    if s != [] {
      LinesHaveNoLf(s[1..]);
      assert Lines(s[1..])[0] in Lines(s[1..]);
    }
  }

  lemma {:induction false} LinesOfPlain(l: Bytes)
    requires LF !in l
    ensures Lines(l) == [l]
  {
    if l != [] {
      assert forall b :: b in l[1..] ==> b in l;
      LinesOfPlain(l[1..]);
      assert [l[0]] + l[1..] == l;
    }
  }

  lemma {:induction false} LinesPrepend(l: Bytes, s: Bytes)
    requires LF !in l
    ensures Lines(l + [LF] + s) == [l] + Lines(s)
  {
    var whole := l + [LF] + s;
    if l == [] {
      assert whole[1..] == s;
    } else {
      assert forall b :: b in l[1..] ==> b in l;
      assert whole[1..] == l[1..] + [LF] + s;
      LinesPrepend(l[1..], s);
      assert whole[0] == l[0] && [l[0]] + l[1..] == l;
      assert ([l[1..]] + Lines(s))[1..] == Lines(s);
    }
  }

  lemma {:induction false} LinesOfJoin(ls: seq<Bytes>)
    requires |ls| > 0 && forall l :: l in ls ==> LF !in l
    ensures Lines(Join(ls)) == ls
  {
    var first, rest := ls[0], ls[1..];
    assert ls == [first] + rest;
    if rest == [] {
      LinesOfPlain(first);
    } else {
      LinesOfJoin(rest);
      LinesPrepend(first, Join(rest));
    }
  }

  lemma {:induction false} JoinAppend(ls: seq<Bytes>)
    requires |ls| > 0
    ensures Join(ls + [[]]) == Join(ls) + [LF]
  {
    if |ls| == 1 {
      assert (ls + [[]])[1..] == [[]];
      assert ls[0] + [LF] + [] == ls[0] + [LF];
    } else {
      assert (ls + [[]])[1..] == ls[1..] + [[]];
      JoinAppend(ls[1..]);
      assert ls[0] + [LF] + (Join(ls[1..]) + [LF]) == ls[0] + [LF] + Join(ls[1..]) + [LF];
    }
  }

  /** A joined text is closed, empty or LF-ended, exactly when its last line is empty. */
  lemma {:induction false} JoinEnd(ls: seq<Bytes>)
    requires |ls| > 0 && forall l :: l in ls ==> LF !in l
    ensures ls[|ls| - 1] == [] <==> Join(ls) == [] || EndsWith(Join(ls), LF)
  {
    assert ls[0] in ls;
    if |ls| > 1 {
      assert forall l :: l in ls[1..] ==> l in ls;
      JoinEnd(ls[1..]);
    }
  }

  lemma {:induction false} CrlfAtBreak(l: Bytes, rest: Bytes)
    requires LF !in l
    ensures ContainsCrlf(l + [LF] + rest) <==> EndsWith(l, CR) || ContainsCrlf(rest)
  {
    var s, n := l + [LF] + rest, |l|;
    assert forall j :: 0 <= j < n ==> s[j] == l[j] && s[j] != LF;
    assert s[n] == LF;
    assert s[n + 1..] == rest;
    if i :| 0 <= i < |s| - 1 && s[i] == CR && s[i + 1] == LF {
      if i >= n {
        assert rest[i - n - 1] == CR && rest[i - n] == LF;
      }
    }
    if i :| 0 <= i < |rest| - 1 && rest[i] == CR && rest[i + 1] == LF {
      assert s[n + 1 + i] == CR && s[n + 2 + i] == LF;
    }
    if EndsWith(l, CR) {
      assert s[n - 1] == CR;
    }
  }

  ghost predicate SomeEndsInCr(ls: seq<Bytes>) {
    exists l :: l in ls && EndsWith(l, CR)
  }

  lemma {:induction false} CrlfInJoin(ls: seq<Bytes>)
    requires |ls| > 0 && forall l :: l in ls ==> LF !in l
    requires ls[|ls| - 1] == []
    ensures ContainsCrlf(Join(ls)) <==> SomeEndsInCr(ls)
  {
    assert ls == [ls[0]] + ls[1..] && ls[0] in ls;
    if |ls| > 1 {
      CrlfInJoin(ls[1..]);
      CrlfAtBreak(ls[0], Join(ls[1..]));
    }
  }

  // ----- what the repair does to lines

  /** The lines of the repaired text: the input's own lines, stripped one by one, then closed. */
  function FixedLines(raw: Bytes): seq<Bytes> {
    var ls := StripLines(Lines(Unix(DropBom(raw))));
    if ls[|ls| - 1] == [] then ls else ls + [[]]
  }

  lemma {:induction false} StrippedUnbroken(ls: seq<Bytes>)
    requires forall l :: l in ls ==> LF !in l
    ensures forall l :: l in StripLines(ls) ==> LF !in l
  {
    var stripped := StripLines(ls);
    forall l | l in stripped ensures LF !in l {
      var i :| 0 <= i < |stripped| && stripped[i] == l;
      assert ls[i] in ls && l <= ls[i];
    }
  }

  lemma {:induction false} FixedLineByLine(raw: Bytes)
    ensures Lines(Fixed(raw)) == FixedLines(raw)
    ensures Fixed(raw) == Join(FixedLines(raw))
    ensures Fixed(raw) == [] || EndsWith(Fixed(raw), LF)
  {
    var source := Lines(Unix(DropBom(raw)));
    var ls := StripLines(source);
    LinesHaveNoLf(Unix(DropBom(raw)));
    StrippedUnbroken(source);
    JoinEnd(ls);
    JoinAppend(ls);
    LinesOfJoin(FixedLines(raw));
    JoinEnd(FixedLines(raw));
  }

  lemma {:induction false} StripLineIsStable(l: Bytes)
    ensures StripLine(StripLine(l)) == StripLine(l)
    ensures BOM <= StripLine(l) <==> BOM <= l
  {
    if !AllBlank(l) {
      var r := RStrip(l);
      assert r == [] ==> AllBlank(l);
      assert RStrip(r) == r;
      assert BOM <= l ==> l[2] == 0xBF && !Blank(l[2]);
    }
  }

  lemma {:induction false} UnixHead(s: Bytes)
    requires s != []
    ensures Unix(s) != []
    ensures if s[0] == CR then Unix(s)[0] == CR || Unix(s)[0] == LF else Unix(s) == [s[0]] + Unix(s[1..])
  {
    assert s == [s[0]] + s[1..];
  }

  lemma {:induction false} CrlfStep(s: Bytes)
    requires |s| >= 2 && !(s[0] == CR && s[1] == LF)
    ensures ContainsCrlf(s) <==> ContainsCrlf(s[1..])
  {
    if i :| 0 <= i < |s| - 1 && s[i] == CR && s[i + 1] == LF {
      assert i > 0 && s[1..][i - 1] == CR && s[1..][i] == LF;
    }
    if i :| 0 <= i < |s[1..]| - 1 && s[1..][i] == CR && s[1..][i + 1] == LF {
      assert s[i + 1] == CR && s[i + 2] == LF;
    }
  }

  lemma {:induction false} UnixShrinks(s: Bytes)
    ensures |Unix(s)| <= |s|
    ensures ContainsCrlf(s) ==> |Unix(s)| < |s|
  {
    if |s| >= 2 {
      if s[0] == CR && s[1] == LF {
        UnixShrinks(s[2..]);
      } else {
        UnixShrinks(s[1..]);
        CrlfStep(s);
      }
    }
  }

  lemma {:induction false} UnixKeepsUnix(s: Bytes)
    requires !ContainsCrlf(s)
    ensures Unix(s) == s
  {
    if |s| >= 2 {
      assert !(s[0] == CR && s[1] == LF);
      CrlfStep(s);
      UnixKeepsUnix(s[1..]);
    }
  }

  lemma {:induction false} UnixEnd(s: Bytes)
    ensures EndsWith(Unix(s), LF) <==> EndsWith(s, LF)
  {
    if |s| >= 2 {
      var t := if s[0] == CR && s[1] == LF then s[2..] else s[1..];
      UnixEnd(t);
      if t != [] {
        UnixHead(t);
      }
    }
  }

  lemma {:induction false} StartsWithBom(s: Bytes)
    ensures BOM <= s <==> |s| >= 3 && s[0] == 0xEF && s[1] == 0xBB && s[2] == 0xBF
  {
    if |s| >= 3 {
      assert s[..3] == [s[0], s[1], s[2]];
      assert BOM <= s <==> s[..3] == BOM;
    }
  }

  lemma {:induction false} UnixKeepsBom(s: Bytes)
    ensures BOM <= Unix(s) <==> BOM <= s
  {
    UnixShrinks(s);
    StartsWithBom(s);
    StartsWithBom(Unix(s));
    if |s| > 2 {
      UnixHead(s);
      UnixHead(s[1..]);
      UnixHead(s[2..]);
      if s[0] != CR {
        assert Unix(s)[1] == Unix(s[1..])[0];
        if s[1] != CR {
          assert s[1..][1..] == s[2..];
          assert Unix(s)[2] == Unix(s[2..])[0];
        }
      }
    }
  }

  lemma {:induction false} BomInFirstLine(ls: seq<Bytes>)
    requires |ls| > 0 && LF !in ls[0]
    ensures BOM <= Join(ls) <==> BOM <= ls[0]
  {
    if |ls| > 1 {
      var s := Join(ls);
      assert s == ls[0] + [LF] + Join(ls[1..]);
      assert s[|ls[0]|] == LF;
      assert BOM <= s ==> s[0] == 0xEF && s[1] == 0xBB && s[2] == 0xBF;
    }
  }

  lemma {:induction false} FixedKeepsSecondBom(raw: Bytes)
    ensures BOM <= Fixed(raw) <==> BOM <= DropBom(raw)
  {
    var u := Unix(DropBom(raw));
    var source := Lines(u);
    FixedLineByLine(raw);
    JoinLines(u);
    UnixKeepsBom(DropBom(raw));
    LinesHaveNoLf(u);
    LinesHaveNoLf(Fixed(raw));
    assert source[0] in source && Lines(Fixed(raw))[0] in Lines(Fixed(raw));
    BomInFirstLine(source);
    BomInFirstLine(FixedLines(raw));
    StripLineIsStable(source[0]);
  }

  lemma {:induction false} FixedCrlf(raw: Bytes)
    ensures ContainsCrlf(Fixed(raw)) <==> !StripsCleanly(Lines(Unix(DropBom(raw))))
  {
    FixedLineByLine(raw);
    var source, ls := Lines(Unix(DropBom(raw))), FixedLines(raw);
    LinesHaveNoLf(Fixed(raw));
    CrlfInJoin(ls);
    if l :| l in ls && EndsWith(l, CR) {
      var k :| 0 <= k < |ls| && ls[k] == l;
      assert source[k] in source;
    }
    if l :| l in source && EndsWith(StripLine(l), CR) {
      var k :| 0 <= k < |source| && source[k] == l;
      assert ls[k] == StripLine(l) && ls[k] in ls;
    }
  }

  lemma {:induction false} StrippedIsClean(l: Bytes)
    requires !EndsWith(StripLine(l), CR)
    ensures !HasTrailingWs(StripLine(l))
  {
    StripLineIsStable(l);
  }

  lemma {:induction false} FixedLinesAreClean(raw: Bytes)
    requires StripsCleanly(Lines(Unix(DropBom(raw))))
    ensures forall l :: l in FixedLines(raw) ==> !HasTrailingWs(l)
  {
    var source, ls := Lines(Unix(DropBom(raw))), FixedLines(raw);
    forall k | 0 <= k < |ls| ensures !HasTrailingWs(ls[k]) {
      if k < |source| {
        assert source[k] in source;
        StrippedIsClean(source[k]);
      }
    }
  }

  /** One repair leaves nothing for the scanner to report exactly when the input is repairable. */
  lemma {:induction false} FixedScansClean(raw: Bytes)
    ensures ScansClean(Fixed(raw)) <==> Repairable(raw)
  {
    FixedLineByLine(raw);
    FixedKeepsSecondBom(raw);
    FixedCrlf(raw);
    if Repairable(raw) {
      FixedLinesAreClean(raw);
    }
  }

  lemma {:induction false} StripShortens(ls: seq<Bytes>)
    requires |ls| > 0
    ensures |Join(StripLines(ls))| <= |Join(ls)|
  {
    if |ls| > 1 {
      assert StripLines(ls)[1..] == StripLines(ls[1..]);
      StripShortens(ls[1..]);
    }
  }

  lemma {:induction false} StableLines(ls: seq<Bytes>)
    requires forall l :: l in ls ==> StripLine(l) == l
    ensures StripLines(ls) == ls
  {
  }

  lemma {:induction false} FixedLinesAreStable(raw: Bytes)
    ensures StripLines(FixedLines(raw)) == FixedLines(raw)
  {
    var source, ls := Lines(Unix(DropBom(raw))), FixedLines(raw);
    forall l | l in ls ensures StripLine(l) == l {
      var k :| 0 <= k < |ls| && ls[k] == l;
      if k < |source| {
        StripLineIsStable(source[k]);
      }
    }
    StableLines(ls);
  }

  lemma {:induction false} RepairedStays(raw: Bytes)
    requires Repairable(raw)
    ensures Fixed(Fixed(raw)) == Fixed(raw)
  {
    FixedLineByLine(raw);
    FixedKeepsSecondBom(raw);
    FixedCrlf(raw);
    UnixKeepsUnix(Fixed(raw));
    FixedLinesAreStable(raw);
  }

  lemma {:induction false} DropsShrink(out: Bytes)
    requires BOM <= out || ContainsCrlf(out)
    ensures |Unix(DropBom(out))| < |out|
  {
    UnixShrinks(DropBom(out));
  }

  lemma {:induction false} StrippedStaysClosed(u: Bytes)
    requires u == [] || EndsWith(u, LF)
    ensures var joined := Join(StripLines(Lines(u))); joined == [] || EndsWith(joined, LF)
  {
    var ls, stripped := Lines(u), StripLines(Lines(u));
    JoinLines(u);
    LinesHaveNoLf(u);
    JoinEnd(ls);
    StrippedUnbroken(ls);
    JoinEnd(stripped);
  }

  /** Behind a text that already ends its last line, repair only removes. */
  lemma {:induction false} FixedNeverGrows(out: Bytes)
    requires out == [] || EndsWith(out, LF)
    ensures |Fixed(out)| <= |Unix(DropBom(out))|
  {
    var u := Unix(DropBom(out));
    UnixEnd(DropBom(out));
    StrippedStaysClosed(u);
    JoinLines(u);
    StripShortens(Lines(u));
  }

  lemma {:induction false} UnrepairedShrinks(raw: Bytes)
    requires !Repairable(raw)
    ensures |Fixed(Fixed(raw))| < |Fixed(raw)|
  {
    FixedLineByLine(raw);
    FixedKeepsSecondBom(raw);
    FixedCrlf(raw);
    DropsShrink(Fixed(raw));
    FixedNeverGrows(Fixed(raw));
  }

  /** A second repair changes nothing exactly when the first one was enough. */
  lemma {:induction false} FixedIsAFixedPoint(raw: Bytes)
    ensures Fixed(Fixed(raw)) == Fixed(raw) <==> Repairable(raw)
  {
    if Repairable(raw) {
      RepairedStays(raw);
    } else {
      UnrepairedShrinks(raw);
    }
  }

  /** A lone CR at the end of a line survives as a fresh CRLF, so repair needs a second pass. */
  lemma {:induction false} LoneCrNeedsASecondPass()
    ensures Fixed([CR]) == [CR, LF] && !ScansClean(Fixed([CR])) && Fixed(Fixed([CR])) == [LF]
  {
    var raw: Bytes := [CR];
    LinesOfPlain(raw);
    assert !AllBlank(raw) by {
      assert !Blank(raw[0]);
    }
    assert StripLines([raw]) == [raw];
    var once: Bytes := [CR, LF];
    assert Fixed(raw) == once;
    assert once[0] == CR && once[1] == LF;
    var none: Bytes := [];
    var two: seq<Bytes> := [none, none];
    assert DropBom(once) == once && Unix(once) == [LF];
    assert Lines([LF]) == two by {
      assert Lines([LF][1..]) == [none];
    }
    assert StripLines(two) == two;
    assert two[1..] == [none];
    assert Join(two) == [LF];
  }

  // ----- the repairable inputs, read off the raw bytes

  /** What is left after the leading blanks. */
  function SkipBlanks(t: Bytes): (u: Bytes)
    ensures |u| <= |t| && (u != [] ==> !Blank(u[0]))
  {
    if t != [] && Blank(t[0]) then SkipBlanks(t[1..]) else t
  }

  /** Behind a CR: blanks and then the end or a CRLF, or at least one blank and then an LF. */
  predicate Dangling(t: Bytes) {
    var u := SkipBlanks(t);
    u == [] || (|u| >= 2 && u[0] == CR && u[1] == LF) || (|u| < |t| && u[0] == LF)
  }

  /** Some CR dangles. */
  ghost predicate DanglingCr(s: Bytes) {
    exists i :: 0 <= i < |s| && DanglesAt(s, i)
  }

  ghost predicate DanglesAt(s: Bytes, i: nat)
    requires i < |s|
  {
    s[i] == CR && Dangling(s[i + 1..])
  }

  lemma {:induction false} DanglingStep(s: Bytes)
    requires s != []
    ensures DanglingCr(s) <==> DanglesAt(s, 0) || DanglingCr(s[1..])
  {
    forall i | 0 < i < |s| ensures s[i + 1..] == s[1..][i..] && (DanglesAt(s, i) <==> DanglesAt(s[1..], i - 1)) {
    }
    if i :| 0 <= i < |s[1..]| && DanglesAt(s[1..], i) {
      assert DanglesAt(s, i + 1);
    }
  }

  ghost predicate SomeStripsToCr(ls: seq<Bytes>) {
    exists l :: l in ls && EndsWith(StripLine(l), CR)
  }

  lemma {:induction false} SomeStripsStep(first: Bytes, rest: seq<Bytes>)
    ensures SomeStripsToCr([first] + rest) <==> EndsWith(StripLine(first), CR) || SomeStripsToCr(rest)
  {
    assert first in [first] + rest;
  }

  lemma {:induction false} PrefixedBlank(b: byte, l: Bytes)
    requires AllBlank(l)
    ensures EndsWith(StripLine([b] + l), CR) <==> b == CR
  {
    var whole := [b] + l;
    assert whole[0] == b && forall i :: 0 <= i < |l| ==> whole[i + 1] == l[i];
    if Blank(b) {
      assert AllBlank(whole);
    } else {
      RStripKeeps(whole, 1);
      assert whole[..1] == [b];
    }
  }

  lemma {:induction false} RStripPrefixed(b: byte, l: Bytes)
    requires !AllBlank(l)
    ensures RStrip([b] + l) == [b] + RStrip(l)
  {
    var whole, n := [b] + l, |l|;
    if Blank(l[n - 1]) {
      assert whole[..n] == [b] + l[..n - 1];
      RStripPrefixed(b, l[..n - 1]);
    }
  }

  lemma {:induction false} TextStrips(l: Bytes, k: nat)
    requires k < |l| && !Blank(l[k])
    ensures StripLine(l) == RStrip(l) && k < |RStrip(l)|
  {
  }

  lemma {:induction false} EndPrefixed(b: byte, r: Bytes)
    requires r != []
    ensures EndsWith([b] + r, CR) <==> EndsWith(r, CR)
  {
  }

  lemma {:induction false} PrefixedText(b: byte, l: Bytes)
    requires !AllBlank(l)
    ensures EndsWith(StripLine([b] + l), CR) <==> EndsWith(StripLine(l), CR)
  {
    var k :| 0 <= k < |l| && !Blank(l[k]);
    TextStrips(l, k);
    TextStrips([b] + l, k + 1);
    RStripPrefixed(b, l);
    EndPrefixed(b, RStrip(l));
  }

  /** Prefixing a byte to a line: it strips to a CR if it did before, or the byte is a CR before nothing but blanks. */
  lemma {:induction false} StripPrefixed(b: byte, l: Bytes)
    ensures EndsWith(StripLine([b] + l), CR) <==> EndsWith(StripLine(l), CR) || (b == CR && AllBlank(l))
  {
    if AllBlank(l) {
      PrefixedBlank(b, l);
    } else {
      PrefixedText(b, l);
    }
  }

  /** Stripping stops at the last byte that is not blank. */
  lemma {:induction false} RStripKeeps(l: Bytes, n: nat)
    requires 0 < n <= |l| && !Blank(l[n - 1]) && forall i :: n <= i < |l| ==> Blank(l[i])
    ensures RStrip(l) == l[..n]
  {
    var r := RStrip(l);
    assert |r| >= n;
  }

  /** The first line of the converted text is blank exactly when the blanks run into a line end. */
  lemma {:induction false} FirstLineBlank(t: Bytes)
    ensures var u := SkipBlanks(t);
            AllBlank(Lines(Unix(t))[0]) <==> u == [] || u[0] == LF || (|u| >= 2 && u[0] == CR && u[1] == LF)
  {
    if t != [] {
      if |t| >= 2 && t[0] == CR && t[1] == LF {
        assert Unix(t)[1..] == Unix(t[2..]);
      } else {
        assert t == [t[0]] + t[1..];
        assert Unix(t) == [t[0]] + Unix(t[1..]);
        assert Unix(t)[1..] == Unix(t[1..]);
        if t[0] != LF {
          FirstLineBlank(t[1..]);
          BlankPrefixed(t[0], Lines(Unix(t[1..]))[0]);
        }
      }
    }
  }

  lemma {:induction false} BlankPrefixed(b: byte, l: Bytes)
    ensures AllBlank([b] + l) <==> Blank(b) && AllBlank(l)
  {
    var whole := [b] + l;
    assert whole[0] == b && forall i :: 0 <= i < |l| ==> whole[i + 1] == l[i];
  }

  lemma {:induction false} StripsToCrExactly(s: Bytes)
    ensures SomeStripsToCr(Lines(Unix(s))) <==> DanglingCr(s)
    decreases |s|, 1
  {
    if s == [] {
      assert Lines(Unix(s)) == [[]];
    } else {
      DanglingStep(s);
      if |s| >= 2 && s[0] == CR && s[1] == LF {
        var rest := s[2..];
        StripsToCrExactly(rest);
        DanglingStep(s[1..]);
        assert s[1..][1..] == rest;
        assert !Dangling(s[1..]);
        assert Unix(s)[1..] == Unix(rest);
        SomeStripsStep([], Lines(Unix(rest)));
      } else {
        OrdinaryByte(s);
      }
    }
  }

  lemma {:induction false} OrdinaryByte(s: Bytes)
    requires s != [] && !(|s| >= 2 && s[0] == CR && s[1] == LF)
    ensures SomeStripsToCr(Lines(Unix(s))) <==> DanglesAt(s, 0) || DanglingCr(s[1..])
    decreases |s|, 0
  {
    var rest := s[1..];
    StripsToCrExactly(rest);
    assert s == [s[0]] + rest;
    assert Unix(s) == [s[0]] + Unix(rest);
    assert Unix(s)[1..] == Unix(rest);
    var ls := Lines(Unix(rest));
    if s[0] == LF {
      SomeStripsStep([], ls);
    } else {
      assert ls == [ls[0]] + ls[1..];
      SomeStripsStep(ls[0], ls[1..]);
      SomeStripsStep([s[0]] + ls[0], ls[1..]);
      StripPrefixed(s[0], ls[0]);
      FirstLineBlank(rest);
      assert s[0] == CR ==> (AllBlank(ls[0]) <==> Dangling(rest));
    }
  }

  /** One repair is enough exactly for a file with no second BOM and no dangling CR behind the first. */
  lemma {:induction false} RepairablePattern(raw: Bytes)
    ensures Repairable(raw) <==> !(BOM <= DropBom(raw)) && !DanglingCr(DropBom(raw))
  {
    StripsToCrExactly(DropBom(raw));
  }

  lemma {:induction false} NothingDangles(s: Bytes)
    requires forall i :: 0 <= i < |s| && s[i] == CR ==> i + 1 < |s| && s[i + 1] == LF
    ensures !DanglingCr(s)
  {
    forall i | 0 <= i < |s| ensures !DanglesAt(s, i) {
      if s[i] == CR {
        assert s[i + 1..][0] == LF;
      }
    }
  }

  /** Ordinary files, with at most one BOM and LF or CRLF endings, are always repairable. */
  lemma {:induction false} PlainFilesAreRepairable(raw: Bytes)
    requires PlainFile(raw)
    ensures Repairable(raw) && ScansClean(Fixed(raw)) && Fixed(Fixed(raw)) == Fixed(raw)
  {
    NothingDangles(DropBom(raw));
    RepairablePattern(raw);
    FixedScansClean(raw);
    FixedIsAFixedPoint(raw);
  }

  // ----- no content is lost

  function Content(s: Bytes): Bytes {
    if s == [] then []
    else
      var n := |s| - 1;
      Content(s[..n]) + if Blank(s[n]) || s[n] == CR || s[n] == LF then [] else [s[n]]
  }

  lemma {:induction false} ContentConcat(a: Bytes, b: Bytes)
    ensures Content(a + b) == Content(a) + Content(b)
  {
    if b == [] {
      assert a + b == a;
    } else {
      var n := |b| - 1;
      assert (a + b)[..|a| + n] == a + b[..n];
      ContentConcat(a, b[..n]);
    }
  }

  lemma {:induction false} ContentCons(b: byte, s: Bytes)
    ensures Content([b] + s) == (if Blank(b) || b == CR || b == LF then [] else [b]) + Content(s)
  {
    ContentConcat([b], s);
    assert Content([b][..0]) == [];
  }

  lemma {:induction false} ContentCrlf(rest: Bytes)
    ensures Content([CR, LF] + rest) == Content([LF] + rest)
  {
    ContentCons(CR, [LF] + rest);
    assert [CR, LF] + rest == [CR] + ([LF] + rest);
  }

  /** Prefixing a byte, or a CRLF that becomes an LF, keeps contents equal. */
  lemma {:induction false} ContentStep(b: byte, s: Bytes, t: Bytes)
    requires Content(s) == Content(t)
    ensures Content([b] + s) == Content([b] + t) && Content([LF] + s) == Content([CR, LF] + t)
  {
    ContentCons(b, s);
    ContentCons(b, t);
    ContentCons(LF, s);
    ContentCons(LF, t);
    ContentCrlf(t);
  }

  lemma {:induction false} ContentOfUnix(s: Bytes)
    ensures Content(Unix(s)) == Content(s)
  {
    if |s| >= 2 {
      var rest := if s[0] == CR && s[1] == LF then s[2..] else s[1..];
      ContentOfUnix(rest);
      ContentStep(s[0], Unix(rest), rest);
      assert s == if s[0] == CR && s[1] == LF then [CR, LF] + rest else [s[0]] + rest;
    }
  }

  lemma {:induction false} ContentOfRStrip(l: Bytes)
    ensures Content(RStrip(l)) == Content(l)
  {
    if l != [] && Blank(l[|l| - 1]) {
      ContentOfRStrip(l[..|l| - 1]);
    }
  }

  lemma {:induction false} ContentOfStrip(ls: seq<Bytes>)
    requires |ls| > 0
    ensures Content(Join(StripLines(ls))) == Content(Join(ls))
  {
    ContentOfRStrip(ls[0]);
    if |ls| > 1 {
      var stripped := StripLines(ls);
      assert stripped[1..] == StripLines(ls[1..]);
      ContentOfStrip(ls[1..]);
      ContentConcat(ls[0] + [LF], Join(ls[1..]));
      ContentConcat(ls[0], [LF]);
      ContentConcat(stripped[0] + [LF], Join(stripped[1..]));
      ContentConcat(stripped[0], [LF]);
    }
  }

  /** For every input at all, the bytes that are not whitespace come through, all of them, in order. */
  lemma {:induction false} FixedKeepsContent(raw: Bytes)
    ensures Content(Fixed(raw)) == Content(DropBom(raw))
  {
    var u := Unix(DropBom(raw));
    ContentOfUnix(DropBom(raw));
    JoinLines(u);
    ContentOfStrip(Lines(u));
    ContentConcat(Join(StripLines(Lines(u))), [LF]);
    assert Content([LF]) == [];
  }

  // ----- the output, line by line, in bytes

  /** A space or a tab. */
  ghost predicate SpaceOrTab(b: byte) {
    b == 32 || b == 9
  }

  /** r is line l stripped: l itself when it holds only spaces and tabs, else all of it up to its last other byte. */
  ghost predicate IsStripped(l: Bytes, r: Bytes) {
    if forall i :: 0 <= i < |l| ==> SpaceOrTab(l[i]) then r == l
    else r != [] && r <= l && !SpaceOrTab(r[|r| - 1]) && forall i :: |r| <= i < |l| ==> SpaceOrTab(l[i])
  }

  lemma {:induction false} StrippedOnce(l: Bytes, a: Bytes, b: Bytes)
    requires IsStripped(l, a) && IsStripped(l, b)
    ensures |a| <= |b|
  {
    if a != [] {
      assert a[|a| - 1] == l[|a| - 1];
    }
  }

  lemma {:induction false} StripLineExactly(l: Bytes, r: Bytes)
    ensures r == StripLine(l) <==> IsStripped(l, r)
  {
    assert AllBlank(l) <==> forall i :: 0 <= i < |l| ==> SpaceOrTab(l[i]);
    assert RStrip(l) == [] ==> AllBlank(l);
    assert IsStripped(l, StripLine(l));
    if IsStripped(l, r) {
      StrippedOnce(l, r, StripLine(l));
      StrippedOnce(l, StripLine(l), r);
    }
  }

  /** A line that a break ends loses one CR at its end. */
  function UnixLine(l: Bytes, ended: bool): Bytes {
    if ended && l != [] && l[|l| - 1] == 13 then l[..|l| - 1] else l
  }

  ghost predicate LineConverted(ls: seq<Bytes>, us: seq<Bytes>, i: nat)
    requires i < |ls| == |us|
  {
    us[i] == UnixLine(ls[i], i < |ls| - 1)
  }

  lemma {:induction false} LinesCons(b: byte, s: Bytes)
    ensures Lines([b] + s) == if b == 10 then [[]] + Lines(s) else [[b] + Lines(s)[0]] + Lines(s)[1..]
  {
    assert ([b] + s)[1..] == s;
  }

  lemma {:induction false} EmptyFirstLine(s: Bytes)
    ensures |Lines(s)| > 1 && Lines(s)[0] == [] ==> s[0] == 10
  {
  }

  /** CRLF conversion works line by line: a CR before a break goes, every other byte stays. */
  lemma {:induction false} UnixLineByLine(s: Bytes)
    ensures |Lines(Unix(s))| == |Lines(s)|
    ensures forall i :: 0 <= i < |Lines(s)| ==> LineConverted(Lines(s), Lines(Unix(s)), i)
    decreases |s|
  {
    if |s| < 2 {
      if s != [] {
        LinesCons(s[0], []);
        assert s == [s[0]] + [];
      }
    } else if s[0] == CR && s[1] == LF {
      var rest := s[2..];
      UnixLineByLine(rest);
      assert s == [13] + ([10] + rest);
      LinesCons(13, [10] + rest);
      LinesCons(10, rest);
      LinesCons(10, Unix(rest));
      var tail := [[]] + Lines(rest);
      assert tail[1..] == Lines(rest) && [13] + tail[0] == [13] && Unix(s) == [10] + Unix(rest);
      ConvertedBehind([13], [], Lines(rest), Lines(Unix(rest)));
    } else {
      var rest := s[1..];
      UnixLineByLine(rest);
      assert s == [s[0]] + rest;
      LinesCons(s[0], rest);
      LinesCons(s[0], Unix(rest));
      EmptyFirstLine(rest);
      if s[0] == 10 {
        ConvertedBehind([], [], Lines(rest), Lines(Unix(rest)));
      } else {
        ConvertedPrefix(s[0], Lines(rest), Lines(Unix(rest)));
      }
    }
  }

  lemma {:induction false} ConvertedBehind(l: Bytes, u: Bytes, ls: seq<Bytes>, us: seq<Bytes>)
    requires |ls| == |us| > 0 && u == UnixLine(l, true)
    requires forall i :: 0 <= i < |ls| ==> LineConverted(ls, us, i)
    ensures forall i :: 0 <= i < |ls| + 1 ==> LineConverted([l] + ls, [u] + us, i)
  {
    forall i | 0 <= i < |ls| + 1 ensures LineConverted([l] + ls, [u] + us, i) {
      if i > 0 {
        assert LineConverted(ls, us, i - 1);
      }
    }
  }

  lemma {:induction false} ConvertedPrefix(b: byte, ls: seq<Bytes>, us: seq<Bytes>)
    requires |ls| == |us| > 0 && (b == 13 && |ls| > 1 ==> ls[0] != [])
    requires forall i :: 0 <= i < |ls| ==> LineConverted(ls, us, i)
    ensures forall i :: 0 <= i < |ls| ==> LineConverted([[b] + ls[0]] + ls[1..], [[b] + us[0]] + us[1..], i)
  {
    var all, conv := [[b] + ls[0]] + ls[1..], [[b] + us[0]] + us[1..];
    forall i | 0 <= i < |ls| ensures LineConverted(all, conv, i) {
      assert LineConverted(ls, us, i);
      if i == 0 && |ls| > 1 && ls[0] != [] && ls[0][|ls[0]| - 1] == 13 {
        assert ([b] + ls[0])[..|ls[0]|] == [b] + ls[0][..|ls[0]| - 1];
      }
    }
  }

  /** Line i of the output is line i of the input, its CR before the break dropped, then stripped. */
  ghost predicate OutputLine(ls: seq<Bytes>, out: seq<Bytes>, i: nat)
    requires i < |ls| <= |out|
  {
    IsStripped(UnixLine(ls[i], i < |ls| - 1), out[i])
  }

  /** The input without one leading byte-order mark. */
  ghost predicate IsBody(raw: Bytes, body: Bytes) {
    if [0xEF, 0xBB, 0xBF] <= raw then raw == [0xEF, 0xBB, 0xBF] + body else body == raw
  }

  /** The whole repair: each line of the input in its place, and a last line break where there was none. */
  lemma {:induction false} OutputLineByLine(raw: Bytes, body: Bytes)
    requires IsBody(raw, body)
    ensures var (ls, out) := (Lines(body), Lines(Fixed(raw)));
            && |ls| <= |out| <= |ls| + 1 && (forall i :: 0 <= i < |ls| ==> OutputLine(ls, out, i))
            && (|out| == |ls| <==> out[|ls| - 1] == []) && out[|out| - 1] == []
  {
    assert body == DropBom(raw);
    FixedLineByLine(raw);
    UnixLineByLine(body);
    var ls, us, out := Lines(body), Lines(Unix(body)), Lines(Fixed(raw));
    forall i | 0 <= i < |ls| ensures OutputLine(ls, out, i) {
      assert LineConverted(ls, us, i);
      StripLineExactly(us[i], out[i]);
    }
  }

  /** Splitting is at each byte 10 and nowhere else, and loses nothing. */
  lemma {:induction false} SplitAtBreaks(s: Bytes)
    ensures Join(Lines(s)) == s && forall l :: l in Lines(s) ==> 10 !in l
  {
    JoinLines(s);
    LinesHaveNoLf(s);
  }

  /** The repairer, rebinding one byte string. */
  method FixBytes(input: Bytes) returns (raw: Bytes)
    ensures raw == Fixed(input)
    ensures Content(raw) == Content(DropBom(input))
    ensures ScansClean(raw) <==> Repairable(input)
  {
    FixedKeepsContent(input);
    FixedScansClean(input);
    raw := input;
    if BOM <= raw {
      raw := raw[|BOM|..];
    }
    raw := Unix(raw);
    raw := Join(StripLines(Lines(raw)));
    if raw != [] && !EndsWith(raw, LF) {
      raw := raw + [LF];
    }
  }
}
