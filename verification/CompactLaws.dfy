/** What Compact guarantees: clean results, idempotence, its exact fixed points, how the
fast path differs from the stages, and that the per-line stages work line by line. */
module CompactLaws {
  import opened Bytes
  import opened Compact
  import S = Strip

  // ---- Each stage establishes its part of Clean -----------------------------------

  /** Printable bytes, tab, newline and carriage return: what the filter leaves. */
  ghost predicate Filtered(t: Text)
  {
    forall c :: c in t ==> !Control(c)
  }

  lemma {:induction false} FilterFilters(t: Text)
    ensures Filtered(Filter(t))
  {
    if t != [] {
      FilterFilters(t[1..]);
    }
  }

  lemma {:induction false} CrLfKeeps(t: Text)
    requires Filtered(t)
    ensures Filtered(CrLf(t))
  {
    if |t| >= 2 {
      if t[0] == CR && t[1] == NL {
        CrLfKeeps(t[2..]);
      } else {
        CrLfKeeps(t[1..]);
      }
    }
  }

  ghost predicate LineOk(line: Text)
  {
    Filtered(line) && CR !in line && NL !in line && (line != [] ==> !Blank(line[|line| - 1]))
  }

  lemma {:induction false} SplitLines(t: Text)
    requires Filtered(t)
    ensures forall line :: line in Split(t) ==> Filtered(line) && NL !in line
  {
    if t != [] {
      SplitLines(t[1..]);
      var rest := Split(t[1..]);
      assert rest[0] in rest;
      assert forall line :: line in rest[1..] ==> line in rest;
    }
  }

  lemma {:induction false} AfterLastCrSuffix(line: Text)
    ensures CR !in AfterLastCr(line) && forall c :: c in AfterLastCr(line) ==> c in line
  {
    if CR in line {
      AfterLastCrSuffix(line[1..]);
    }
  }

  lemma {:induction false} AfterLastCrCuts(line: Text)
    ensures var r := AfterLastCr(line);
            |r| <= |line| && r == line[|line| - |r|..] && (|r| < |line| ==> line[|line| - |r| - 1] == CR)
  {
    if CR in line {
      AfterLastCrCuts(line[1..]);
      AfterLastCrSuffix(line[1..]);
      assert line[0] != CR ==> CR in line[1..];
    }
  }

  /** What the per-line stage keeps of a line: the stretch between its last carriage return
  and its trailing blanks. */
  lemma CleanLineKeeps(line: Text)
    ensures var r, tail := CleanLine(line), AfterLastCr(line);
            && |r| <= |tail| <= |line| && CR !in tail && r == line[|line| - |tail|..][..|r|]
            && (|tail| < |line| ==> line[|line| - |tail| - 1] == CR)
            && (r != [] ==> r[|r| - 1] != 0x20 && r[|r| - 1] != 0x09)
            && forall k :: |r| <= k < |tail| ==> tail[k] == 0x20 || tail[k] == 0x09
  {
    AfterLastCrSuffix(line);
    AfterLastCrCuts(line);
    TrimBlanksTrims(AfterLastCr(line));
  }

  lemma {:induction false} TrimBlanksTrims(line: Text)
    ensures var r := TrimBlanks(line);
            && r <= line && (r != [] ==> !Blank(r[|r| - 1])) && (forall c :: c in r ==> c in line)
            && forall k :: |r| <= k < |line| ==> Blank(line[k])
  {
    if line != [] && Blank(line[|line| - 1]) {
      TrimBlanksTrims(line[..|line| - 1]);
    }
  }

  lemma {:induction false} CleanLinesOk(lines: seq<Text>)
    requires forall line :: line in lines ==> Filtered(line) && NL !in line
    ensures forall line :: line in CleanLines(lines) ==> LineOk(line)
  {
    if lines != [] {
      AfterLastCrSuffix(lines[0]);
      TrimBlanksTrims(AfterLastCr(lines[0]));
      assert lines[0] in lines;
      CleanLinesOk(lines[1..]);
    }
  }

  lemma {:induction false} JoinOk(lines: seq<Text>)
    requires lines != [] && forall line :: line in lines ==> LineOk(line)
    ensures Visible(Join(lines)) && NoTrailing(Join(lines))
  {
    assert lines[0] in lines;
    if |lines| > 1 {
      JoinOk(lines[1..]);
      var first, rest := lines[0], Join(lines[1..]);
      var all := first + [NL] + rest;
      forall i | 0 <= i < |all| && Blank(all[i])
        ensures i + 1 < |all| && all[i + 1] != NL
      {
        if i > |first| {
          assert all[i] == rest[i - |first| - 1];
          assert Blank(rest[i - |first| - 1]);
        }
      }
    }
  }

  lemma LineStageOk(t: Text)
    ensures Visible(LineStage(t)) && NoTrailing(LineStage(t))
  {
    FilterFilters(t);
    CrLfKeeps(Filter(t));
    SplitLines(CrLf(Filter(t)));
    CleanLinesOk(Split(CrLf(Filter(t))));
    JoinOk(CleanLines(Split(CrLf(Filter(t)))));
  }

  lemma VisibleSuffix(t: Text, k: nat)
    requires k <= |t| && Visible(t) && NoTrailing(t)
    ensures Visible(t[k..]) && NoTrailing(t[k..])
  {
    var u := t[k..];
    forall i | 0 <= i < |u| && Blank(u[i])
      ensures i + 1 < |u| && u[i + 1] != NL
    {
      assert Blank(t[k + i]);
    }
  }

  lemma {:induction false} FoldOk(t: Text)
    requires Visible(t) && NoTrailing(t)
    ensures var r := Fold(t);
            && Visible(r) && NoTrailing(r) && NoTriple(r)
            && (r == [] <==> t == []) && (t != [] ==> r[0] == t[0])
    decreases |t|
  {
    if t != [] {
      var n, head := Taken(t), FoldHead(t);
      var rest := Fold(t[n..]);
      VisibleSuffix(t, n);
      FoldOk(t[n..]);
      FoldStep(t);
      HeadOk(t);
      NoTrailingJoin(head, rest);
      NoTripleJoin(head, rest);
    }
  }

  /** What folding takes from the front of t at a time, and what it makes of it. */
  function Taken(t: Text): nat
    requires t != []
  {
    if t[0] == NL then Run(t) else 1
  }

  function FoldHead(t: Text): Text
    requires t != []
  {
    if t[0] != NL then [t[0]] else if Run(t) >= 3 then [NL, NL] else t[..Run(t)]
  }

  lemma FoldStep(t: Text)
    requires t != []
    ensures 0 < Taken(t) <= |t| && Fold(t) == FoldHead(t) + Fold(t[Taken(t)..])
  {
  }

  lemma HeadOk(t: Text)
    requires t != [] && Visible(t) && NoTrailing(t)
    ensures var n, head := Taken(t), FoldHead(t);
            && 0 < n <= |t| && 0 < |head| <= 2 && head[0] == t[0] && Visible(head)
            && (|head| == 2 ==> head[0] == NL) && (head[0] == NL && n < |t| ==> t[n] != NL)
            && (forall i :: 0 <= i < |head| && Blank(head[i]) ==> i == |head| - 1 && n < |t| && t[n] != NL)
  {
    assert Blank(t[0]) ==> 1 < |t| && t[1] != NL;
  }

  lemma NoTripleJoin(head: Text, rest: Text)
    requires 0 < |head| <= 2 && (|head| == 2 ==> head[0] == NL) && NoTriple(rest)
    requires head[0] == NL && rest != [] ==> rest[0] != NL
    ensures NoTriple(head + rest)
  {
    forall i
      ensures !TripleAt(head + rest, i)
    {
      assert TripleAt(head + rest, i) && i >= |head| ==> TripleAt(rest, i - |head|);
    }
  }

  lemma NoTrailingJoin(head: Text, rest: Text)
    requires NoTrailing(rest)
    requires forall i :: 0 <= i < |head| && Blank(head[i]) ==> i == |head| - 1 && rest != [] && rest[0] != NL
    ensures NoTrailing(head + rest)
  {
    forall i | 0 <= i < |head + rest| && Blank((head + rest)[i])
      ensures i + 1 < |head + rest| && (head + rest)[i + 1] != NL
    {
      assert i >= |head| ==> Blank(rest[i - |head|]);
    }
  }

  /** The right trim removes newlines only, all of them. */
  lemma {:induction false} TrimRightNlTrims(t: Text)
    ensures var r := TrimRightNl(t);
            && r <= t && (r != [] ==> r[|r| - 1] != NL)
            && forall k :: |r| <= k < |t| ==> t[k] == NL
  {
    if t != [] && t[|t| - 1] == NL {
      TrimRightNlTrims(t[..|t| - 1]);
    }
  }

  /** A prefix of clean text that stops before a newline, or at the end, is clean. */
  lemma CleanPrefix(t: Text, k: nat)
    requires Clean(t) && k <= |t| && (k < |t| ==> t[k] == NL)
    ensures Clean(t[..k])
  {
    var u := t[..k];
    forall i | 0 <= i < |u| && Blank(u[i])
      ensures i + 1 < |u| && u[i + 1] != NL
    {
      assert Blank(t[i]);
    }
    forall i
      ensures !TripleAt(u, i)
    {
      assert TripleAt(u, i) ==> TripleAt(t, i);
    }
  }

  /** The stages always end in clean text that does not end in a blank line. */
  lemma SlowIsClean(t: Text)
    ensures Clean(Slow(t)) && !EndsInBlankLine(Slow(t))
  {
    LineStageOk(t);
    FoldOk(LineStage(t));
    TrimEdgesOk(Fold(LineStage(t)));
  }

  lemma TrimEdgesOk(t: Text)
    requires Visible(t) && NoTrailing(t) && NoTriple(t)
    ensures Clean(TrimEdges(t)) && !EndsInBlankLine(TrimEdges(t))
  {
    var left := t[Run(t)..];
    TrimLeftOk(t);
    TrimRightNlTrims(left);
    CleanPrefix(left, |TrimRightNl(left)|);
    assert TrimRightNl(left) == left[..|TrimRightNl(left)|];
  }

  lemma TrimLeftOk(t: Text)
    requires Visible(t) && NoTrailing(t) && NoTriple(t)
    ensures Clean(t[Run(t)..])
  {
    VisibleSuffix(t, Run(t));
    NoTripleSuffix(t, Run(t));
  }

  /** `r` is folded text without its leading newlines, and without its trailing ones if it
  would otherwise end in a blank line. */
  ghost predicate Trimmed(folded: Text, r: Text, lead: nat)
  {
    && lead + |r| <= |folded| && r == folded[lead..lead + |r|]
    && (forall k :: 0 <= k < lead ==> folded[k] == NL) && (lead < |folded| ==> folded[lead] != NL)
    && (forall k :: lead + |r| <= k < |folded| ==> folded[k] == NL)
    && if EndsInBlankLine(folded[lead..]) then r == [] || r[|r| - 1] != NL else lead + |r| == |folded|
  }

  lemma RightTrimmed(t: Text)
    ensures var r := if EndsInBlankLine(t) then TrimRightNl(t) else t;
            && |r| <= |t| && r == t[..|r|] && (forall k :: |r| <= k < |t| ==> t[k] == NL)
            && if EndsInBlankLine(t) then r == [] || r[|r| - 1] != NL else |r| == |t|
  {
    TrimRightNlTrims(t);
  }

  lemma EdgesTrimmed(t: Text)
    ensures Trimmed(t, TrimEdges(t), Run(t))
  {
    RightTrimmed(t[Run(t)..]);
    ShiftTrimmed(t, TrimEdges(t), Run(t));
  }

  lemma ShiftTrimmed(t: Text, r: Text, lead: nat)
    requires lead <= |t| && |r| <= |t| - lead && r == t[lead..][..|r|]
    requires forall k :: |r| <= k < |t| - lead ==> t[lead..][k] == NL
    requires (forall k :: 0 <= k < lead ==> t[k] == NL) && (lead < |t| ==> t[lead] != NL)
    requires if EndsInBlankLine(t[lead..]) then r == [] || r[|r| - 1] != NL else |r| == |t| - lead
    ensures Trimmed(t, r, lead)
  {
    var left := t[lead..];
    forall k | lead + |r| <= k < |t|
      ensures t[k] == NL
    {
      assert left[k - lead] == NL;
    }
  }

  /** What the stages after the per-line one do: fold with the expression, then trim. */
  lemma TrimsExactly(t: Text) returns (lead: nat)
    ensures Trimmed(S.ReplaceAll(Newlines(3), [NL, NL], LineStage(t), 0), Slow(t), lead)
  {
    var lines := LineStage(t);
    FoldIsReplace(lines, 0);
    assert lines[0..] == lines;
    lead := Run(Fold(lines));
    EdgesTrimmed(Fold(lines));
  }

  /** Clean text, byte by byte. */
  lemma CleanMeans(t: Text)
    ensures Clean(t) <==>
            && (forall i :: 0 <= i < |t| ==> t[i] == 0x09 || t[i] == 0x0A || 0x20 <= t[i] <= 0x7E || t[i] >= 0x80)
            && (forall i :: 0 <= i < |t| && (t[i] == 0x20 || t[i] == 0x09) ==> i + 1 < |t| && t[i + 1] != 0x0A)
            && (forall i :: 0 <= i < |t| - 2 && t[i] == 0x0A && t[i + 1] == 0x0A ==> t[i + 2] != 0x0A)
            && (t != [] ==> t[0] != 0x0A)
  {
    assert forall i :: 0 <= i < |t| - 2 && t[i] == 0x0A && t[i + 1] == 0x0A ==> (TripleAt(t, i) <==> t[i + 2] == 0x0A);
  }

  // ---- Idempotence and fixed points --------------------------------------------------

  lemma CompactIsClean(t: Text)
    ensures Clean(Compacted(t))
  {
    if t != [] && !Clean(t) {
      SlowIsClean(t);
    }
  }

  lemma CompactIdempotent(t: Text)
    ensures Compacted(Compacted(t)) == Compacted(t)
  {
    CompactIsClean(t);
  }

  /** Compact leaves its input alone exactly when the fast test finds nothing to do. */
  lemma FixedPoints(t: Text)
    ensures Compacted(t) == t <==> Clean(t)
  {
    CompactIsClean(t);
  }

  // ---- The fast path against the stages -------------------------------------------------

  lemma {:induction false} FilterIdentity(t: Text)
    requires Visible(t)
    ensures Filter(t) == t && CrLf(t) == t
  {
    if t != [] {
      assert forall i :: 0 <= i < |t[1..]| ==> t[1..][i] == t[i + 1];
      FilterIdentity(t[1..]);
    }
  }

  lemma {:induction false} SplitClean(t: Text)
    requires Visible(t) && NoTrailing(t)
    ensures CleanLines(Split(t)) == Split(t) && Join(Split(t)) == t
    ensures Split(t)[0] == [] <==> t == [] || t[0] == NL
    ensures CleanLine(Split(t)[0]) == Split(t)[0]
  {
    if t != [] {
      VisibleSuffix(t, 1);
      SplitClean(t[1..]);
      var rest := Split(t[1..]);
      if t[0] != NL {
        CleanLineExtend(t[0], rest[0]);
        assert CleanLines(rest)[1..] == CleanLines(rest[1..]);
      }
    }
  }

  /** Prepending a visible byte to a clean line keeps it clean, unless it is a blank on
  its own. */
  lemma CleanLineExtend(c: Byte, line: Text)
    requires c != CR && CleanLine(line) == line && (Blank(c) ==> line != [])
    ensures CleanLine([c] + line) == [c] + line
  {
    AfterLastCrSuffix(line);
    TrimBlanksTrims(AfterLastCr(line));
    assert CR !in line;
    assert CR !in [c] + line;
    var all := [c] + line;
    assert all[|all| - 1] == if line == [] then c else line[|line| - 1];
  }

  lemma {:induction false} FoldIdentity(t: Text)
    requires NoTriple(t)
    ensures Fold(t) == t
    decreases |t|
  {
    if t != [] {
      var n := if t[0] == NL then Run(t) else 1;
      assert !TripleAt(t, 0);
      NoTripleSuffix(t, n);
      FoldIdentity(t[n..]);
      if t[0] == NL {
        FoldRun(t, n);
      }
      assert t[..n] + t[n..] == t;
    }
  }

  lemma NoTripleSuffix(t: Text, n: nat)
    requires n <= |t| && NoTriple(t)
    ensures NoTriple(t[n..])
  {
    var rest, k: int := t[n..], n;
    forall i: int
      ensures !TripleAt(rest, i)
    {
      assert TripleAt(rest, i) ==> TripleAt(t, k + i);
    }
  }

  /** On clean text the stages agree with the fast path, except that they would also
  remove the newlines after a final blank line. */
  lemma FastAgainstSlow(t: Text)
    requires Clean(t)
    ensures Slow(t) == if EndsInBlankLine(t) then TrimRightNl(t) else t
    ensures Slow(t) == t <==> !EndsInBlankLine(t)
  {
    FilterIdentity(t);
    SplitClean(t);
    FoldIdentity(t);
    assert t[0..] == t;
    TrimRightNlTrims(t);
  }

  /** Compact's result ends in a blank line exactly when its input is clean and does. */
  lemma BlankEndStays(t: Text)
    ensures EndsInBlankLine(Compacted(t)) <==> Clean(t) && EndsInBlankLine(t)
  {
    if t != [] && !Clean(t) {
      SlowIsClean(t);
    }
  }

  /** The shortest such input: the fast path keeps the blank line that the stages remove. */
  lemma BlankEndKept() returns (t: Text)
    ensures t == [0x61, NL, NL] && Compacted(t) == t && EndsInBlankLine(t) && Slow(t) == [0x61]
  {
    t := [0x61, NL, NL];
    FastAgainstSlow(t);
    assert t[..2] == [0x61, NL] && t[..2][..1] == [0x61];
    assert TrimRightNl(t) == TrimRightNl(t[..2]) == TrimRightNl([0x61]);
  }

  // ---- The blank-line expression ---------------------------------------------------------

  /** At least k newlines; the source's expression has k = 3. */
  function Newlines(k: nat): S.Pattern {
    var nl := S.OneOf([NL]);
    if k == 0 then S.Many(nl, S.Accept) else S.One(nl, Newlines(k - 1))
  }

  lemma RunStep(t: Text, i: nat)
    requires i < |t|
    ensures Run(t[i..]) == if t[i] == NL then 1 + Run(t[i + 1..]) else 0
  {
    assert t[i..][1..] == t[i + 1..];
  }

  lemma {:induction false} SkipIsRun(t: Text, i: nat)
    requires i <= |t|
    ensures S.Skip(S.OneOf([NL]), t, i) == i + Run(t[i..])
    decreases |t| - i
  {
    if i < |t| {
      RunStep(t, i);
      if t[i] == NL {
        SkipIsRun(t, i + 1);
      }
    }
  }

  lemma {:induction false} FirstNewlines(k: nat, t: Text, i: nat)
    requires i <= |t|
    ensures S.First(Newlines(k), t, i) == if Run(t[i..]) >= k then Some(i + Run(t[i..])) else None
  {
    if k == 0 {
      S.ManyAtEnd(S.OneOf([NL]), t, i);
      SkipIsRun(t, i);
    } else if i < |t| {
      RunStep(t, i);
      FirstNewlines(k - 1, t, i + 1);
    }
  }

  /** Folding is the expression's replacement of every such run by two newlines. */
  lemma {:induction false} FoldIsReplace(t: Text, i: nat)
    requires i <= |t|
    ensures Fold(t[i..]) == S.ReplaceAll(Newlines(3), [NL, NL], t, i)
    decreases |t| - i
  {
    FirstNewlines(3, t, i);
    var n := Run(t[i..]);
    if n >= 3 {
      FoldIsReplace(t, i + n);
      assert t[i..][n..] == t[i + n..];
    } else if i < |t| {
      FoldIsReplace(t, i + 1);
      FoldShort(t[i..]);
      assert t[i..][1..] == t[i + 1..];
    }
  }

  lemma FoldShort(t: Text)
    requires t != [] && Run(t) < 3
    ensures Fold(t) == [t[0]] + Fold(t[1..])
  {
    if t[0] == NL && t != [NL] && t[1] == NL {
      FoldPair(t);
    } else {
      assert t[..1] == [t[0]];
    }
  }

  lemma FoldPair(t: Text)
    requires |t| >= 2 && t[0] == NL && t[1] == NL && Run(t) < 3
    ensures Fold(t) == [NL] + Fold(t[1..])
  {
    var rest := t[2..];
    assert t == [NL, NL] + rest && t[1..] == [NL] + rest;
    RunPair(rest);
    FoldOne(rest);
    FoldTwo(rest);
  }

  lemma RunPair(rest: Text)
    ensures Run([NL, NL] + rest) == 2 + Run(rest)
  {
    var t := [NL, NL] + rest;
    assert t[1..] == [NL] + rest && ([NL] + rest)[1..] == rest;
  }

  lemma FoldOne(rest: Text)
    requires Run(rest) == 0
    ensures Fold([NL] + rest) == [NL] + Fold(rest)
  {
    assert ([NL] + rest)[1..] == rest;
    FoldRun([NL] + rest, 1);
  }

  lemma FoldTwo(rest: Text)
    requires Run(rest) == 0
    ensures Fold([NL, NL] + rest) == [NL] + ([NL] + Fold(rest))
  {
    var t := [NL, NL] + rest;
    assert t[1..] == [NL] + rest && ([NL] + rest)[1..] == rest && t[2..] == rest;
    FoldRun(t, 2);
    assert [NL, NL] + Fold(rest) == [NL] + ([NL] + Fold(rest));
  }

  lemma FoldRun(t: Text, n: nat)
    requires t != [] && t[0] == NL && Run(t) == n < 3
    ensures Fold(t) == t[..n] + Fold(t[n..])
  {
  }

  /** CrLf is the replacement of every CR NL by NL, found from left to right. */
  lemma {:induction false} CrLfIsReplace(t: Text, i: nat)
    requires i <= |t|
    ensures CrLf(t[i..]) == S.ReplaceAll(CrNl(), [NL], t, i)
    decreases |t| - i
  {
    FirstCrNl(t, i);
    if i < |t| {
      var n := if S.First(CrNl(), t, i).Some? then 2 else 1;
      CrLfIsReplace(t, i + n);
      assert t[i..][n..] == t[i + n..];
    }
  }

  function CrNl(): S.Pattern {
    S.One(S.OneOf([CR]), S.One(S.OneOf([NL]), S.Accept))
  }

  lemma FirstCrNl(t: Text, i: nat)
    requires i <= |t|
    ensures S.First(CrNl(), t, i) == if i + 1 < |t| && t[i] == CR && t[i + 1] == NL then Some(i + 2) else None
  {
    if i < |t| {
      assert S.First(CrNl().next, t, i + 1) == if i + 1 < |t| && t[i + 1] == NL then Some(i + 2) else None;
    }
  }

  // ---- Line by line ----------------------------------------------------------------------

  function DropCr(t: Text): Text {
    if t != [] && t[|t| - 1] == CR then t[..|t| - 1] else t
  }

  lemma {:induction false} FilterAppend(a: Text, b: Text)
    ensures Filter(a + b) == Filter(a) + Filter(b)
  {
    if a == [] {
      assert a + b == b;
    } else {
      assert (a + b)[1..] == a[1..] + b;
      FilterAppend(a[1..], b);
    }
  }

  lemma {:induction false} CrLfAppend(a: Text, b: Text)
    ensures CrLf(a + [NL] + b) == CrLf(DropCr(a)) + [NL] + CrLf(b)
    decreases |a|
  {
    var all := a + [NL] + b;
    if a == [] || a == [CR] {
      CrLfHead(a, b);
    } else {
      var n := if |a| >= 2 && a[0] == CR && a[1] == NL then 2 else 1;
      assert all[n..] == a[n..] + [NL] + b;
      CrLfAppend(a[n..], b);
      CrLfStep(a, n);
    }
  }

  lemma CrLfHead(a: Text, b: Text)
    requires a == [] || a == [CR]
    ensures CrLf(a + [NL] + b) == [NL] + CrLf(b)
  {
    assert (a + [NL] + b)[|a| + 1..] == b;
    assert a == [] && b == [] ==> a + [NL] + b == [NL];
  }

  lemma CrLfStep(a: Text, n: nat)
    requires a != [] && a != [CR] && n == if |a| >= 2 && a[0] == CR && a[1] == NL then 2 else 1
    ensures CrLf(DropCr(a)) == (if n == 2 then [NL] else [a[0]]) + CrLf(DropCr(a[n..]))
  {
    assert DropCr(a)[n..] == DropCr(a[n..]);
  }

  lemma {:induction false} SplitAppend(a: Text, b: Text)
    ensures Split(a + [NL] + b) == Split(a) + Split(b)
  {
    var all := a + [NL] + b;
    if a == [] {
      assert all[1..] == b;
    } else {
      assert all[1..] == a[1..] + [NL] + b;
      SplitAppend(a[1..], b);
    }
  }

  lemma {:induction false} CleanLinesAppend(a: seq<Text>, b: seq<Text>)
    ensures CleanLines(a + b) == CleanLines(a) + CleanLines(b)
  {
    if a == [] {
      assert a + b == b;
    } else {
      assert (a + b)[1..] == a[1..] + b;
      CleanLinesAppend(a[1..], b);
    }
  }

  lemma {:induction false} JoinAppend(a: seq<Text>, b: seq<Text>)
    requires a != [] && b != []
    ensures Join(a + b) == Join(a) + [NL] + Join(b)
  {
    assert (a + b)[1..] == a[1..] + b;
    if |a| > 1 {
      JoinAppend(a[1..], b);
    }
  }

  lemma PerLineAppend(a: Text, b: Text)
    ensures PerLine(a + [NL] + b) == PerLine(a) + [NL] + PerLine(b)
  {
    SplitAppend(a, b);
    CleanLinesAppend(Split(a), Split(b));
    JoinAppend(CleanLines(Split(a)), CleanLines(Split(b)));
  }

  /** The filter, CRLF and per-line stages treat the text before and after a newline
  independently, up to one carriage return that the newline absorbs. */
  lemma LineByLine(a: Text, b: Text)
    ensures LineStage(a + [NL] + b) == PerLine(CrLf(DropCr(Filter(a)))) + [NL] + LineStage(b)
  {
    FilterAppend(a + [NL], b);
    FilterAppend(a, [NL]);
    assert Filter([NL]) == [NL];
    CrLfAppend(Filter(a), Filter(b));
    PerLineAppend(CrLf(DropCr(Filter(a))), CrLf(Filter(b)));
  }

  lemma {:induction false} AfterLastCrOf(a: Text, b: Text)
    ensures AfterLastCr(a + [CR] + b) == AfterLastCr(b)
    decreases |a|
  {
    var all := a + [CR] + b;
    assert all[|a|] == CR;
    if a == [] {
      assert all[1..] == b;
    } else {
      assert all[1..] == a[1..] + [CR] + b;
      AfterLastCrOf(a[1..], b);
    }
  }

  lemma {:induction false} SplitOneLine(t: Text)
    requires NL !in t
    ensures Split(t) == [t]
  {
    if t != [] {
      SplitOneLine(t[1..]);
      assert [t[0]] + t[1..] == t;
    }
  }

  lemma {:induction false} CrLfOneLine(t: Text)
    requires NL !in t
    ensures CrLf(t) == t
  {
    if |t| >= 2 {
      assert t[1] in t;
      CrLfOneLine(t[1..]);
    }
  }

  lemma {:induction false} FilterSubset(t: Text)
    ensures forall c :: c in Filter(t) ==> c in t
  {
    if t != [] {
      FilterSubset(t[1..]);
    }
  }

  lemma OneLine(t: Text)
    requires NL !in t
    ensures LineStage(t) == CleanLine(Filter(t))
  {
    FilterSubset(t);
    CrLfOneLine(Filter(t));
    SplitOneLine(Filter(t));
    assert CleanLines([Filter(t)]) == [CleanLine(Filter(t))];
  }

  /** A carriage return makes what follows it on the line overwrite what precedes it, as in a
  progress bar. */
  lemma Overwrites(a: Text, b: Text)
    requires NL !in a && NL !in b
    ensures LineStage(a + [CR] + b) == LineStage(b)
  {
    FilterAppend(a + [CR], b);
    FilterAppend(a, [CR]);
    assert Filter([CR]) == [CR];
    OneLine(a + [CR] + b);
    OneLine(b);
    AfterLastCrOf(Filter(a), Filter(b));
  }

  /** So they are a homomorphism on newlines wherever the filtered text before the newline
  does not end in a carriage return. */
  lemma LineHomomorphism(a: Text, b: Text)
    requires Filter(a) != [] ==> Filter(a)[|Filter(a)| - 1] != CR
    ensures LineStage(a + [NL] + b) == LineStage(a) + [NL] + LineStage(b)
  {
    LineByLine(a, b);
  }
}
