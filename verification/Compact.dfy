/** The output normaliser: a fast test for text that is already clean and a pipeline of
stages for the rest.

`Compact` and `NeedsCompact` are the loops of the source; each library call they make
(ReplaceAll, Split, LastIndex, TrimRight, Join, the blank-line regular expression) is a
function here. */
module Compact {
  import opened Bytes

  // ---- Byte classes -----------------------------------------------------------

  predicate Control(c: Byte) {
    (c < 0x20 && c != CR && c != NL && c != TAB) || c == DEL
  }

  predicate Blank(c: Byte) {
    c == SPACE || c == TAB
  }

  // ---- The stages ---------------------------------------------------------------

  function Filter(t: Text): Text {
    if t == [] then [] else if Control(t[0]) then Filter(t[1..]) else [t[0]] + Filter(t[1..])
  }

  function CrLf(t: Text): Text {
    if |t| < 2 then t
    else if t[0] == CR && t[1] == NL then [NL] + CrLf(t[2..])
    else [t[0]] + CrLf(t[1..])
  }

  function Split(t: Text): (lines: seq<Text>)
    ensures lines != []
  {
    if t == [] then [[]]
    else
      var rest := Split(t[1..]);
      if t[0] == NL then [[]] + rest else [[t[0]] + rest[0]] + rest[1..]
  }

  function Join(lines: seq<Text>): Text {
    if lines == [] then []
    else if |lines| == 1 then lines[0]
    else lines[0] + [NL] + Join(lines[1..])
  }

  /** The part of a line after its last carriage return. */
  function AfterLastCr(line: Text): Text {
    if CR !in line then line else AfterLastCr(line[1..])
  }

  function TrimBlanks(line: Text): Text {
    if line != [] && Blank(line[|line| - 1]) then TrimBlanks(line[..|line| - 1]) else line
  }

  function CleanLine(line: Text): Text {
    TrimBlanks(AfterLastCr(line))
  }

  function CleanLines(lines: seq<Text>): (r: seq<Text>)
    ensures |r| == |lines|
  {
    if lines == [] then [] else [CleanLine(lines[0])] + CleanLines(lines[1..])
  }

  /** How many newlines t starts with. */
  function Run(t: Text): (n: nat)
    ensures n <= |t| && (forall k :: 0 <= k < n ==> t[k] == NL) && (n < |t| ==> t[n] != NL)
  {
    if t == [] || t[0] != NL then 0 else 1 + Run(t[1..])
  }

  function Fold(t: Text): Text {
    if t == [] then []
    else if t[0] != NL then [t[0]] + Fold(t[1..])
    else (if Run(t) >= 3 then [NL, NL] else t[..Run(t)]) + Fold(t[Run(t)..])
  }

  function TrimRightNl(t: Text): Text {
    if t != [] && t[|t| - 1] == NL then TrimRightNl(t[..|t| - 1]) else t
  }

  predicate EndsInBlankLine(t: Text) {
    |t| >= 2 && t[|t| - 2] == NL && t[|t| - 1] == NL
  }

  function TrimEdges(t: Text): Text {
    var left := t[Run(t)..];
    if EndsInBlankLine(left) then TrimRightNl(left) else left
  }

  function PerLine(t: Text): Text {
    Join(CleanLines(Split(t)))
  }

  /** The stages up to the per-line one: filter, CRLF, overwrites and trailing blanks. */
  function LineStage(t: Text): Text {
    PerLine(CrLf(Filter(t)))
  }

  function Slow(t: Text): Text {
    TrimEdges(Fold(LineStage(t)))
  }

  // ---- Clean text -----------------------------------------------------------------

  ghost predicate Visible(t: Text)
  {
    forall i :: 0 <= i < |t| ==> !Control(t[i]) && t[i] != CR
  }

  ghost predicate NoTrailing(t: Text)
  {
    forall i :: 0 <= i < |t| && Blank(t[i]) ==> i + 1 < |t| && t[i + 1] != NL
  }

  predicate TripleAt(t: Text, i: int) {
    0 <= i && i + 2 < |t| && t[i] == NL && t[i + 1] == NL && t[i + 2] == NL
  }

  ghost predicate NoTriple(t: Text)
  {
    forall i :: !TripleAt(t, i)
  }

  /** No control byte except tab and newline, no carriage return, no blank before a newline
  or the end, no run of three newlines, no leading newline. */
  ghost predicate Clean(t: Text)
  {
    Visible(t) && NoTrailing(t) && NoTriple(t) && (t != [] ==> t[0] != NL)
  }

  /** What Compact returns: clean text as it is, anything else through the stages. */
  ghost function Compacted(t: Text): Text
  {
    if t == [] || Clean(t) then t else Slow(t)
  }

  // ---- The source's loops -----------------------------------------------------------

  /** Updating the two counters of the newline run at position i. */
  method CountRun(ghost text: Text, ghost i: nat, c: Byte, run: int, maxRun: int) returns (run': int, maxRun': int)
    requires i < |text| && text[i] == c && RunAt(text, i, run) && run <= maxRun
    requires maxRun < 3 <==> forall k :: k + 2 < i ==> !TripleAt(text, k)
    ensures RunAt(text, i + 1, run') && run' <= maxRun'
    ensures maxRun' < 3 <==> forall k :: k + 2 < i + 1 ==> !TripleAt(text, k)
  {
    run', maxRun' := run, maxRun;
    if c == NL {
      run' := run' + 1;
      assert run' >= 3 <==> TripleAt(text, i - 2);
      if run' > maxRun' {
        maxRun' := run';
      }
    } else {
      run' := 0;
      assert !TripleAt(text, i - 2);
    }
  }

  /** Exactly the last `run` bytes before i are newlines. */
  ghost predicate RunAt(text: Text, i: int, run: int)
  {
    && 0 <= run <= i <= |text| && (forall k :: i - run <= k < i ==> text[k] == NL)
    && (run < i ==> text[i - run - 1] != NL)
  }

  method NeedsCompact(text: Text) returns (needs: bool)
    ensures needs <==> !Clean(text)
  {
    var hasControl, hasCr, hasTrailingSpace := false, false, false;
    var blankRun, maxBlankRun := 0, 0;
    for i := 0 to |text|
      invariant !hasControl && !hasCr <==> forall k :: 0 <= k < i ==> !Control(text[k]) && text[k] != CR
      invariant !hasTrailingSpace <==> forall k :: 0 <= k < i && Blank(text[k]) ==> k + 1 < |text| && text[k + 1] != NL
      invariant RunAt(text, i, blankRun) && blankRun <= maxBlankRun
      invariant maxBlankRun < 3 <==> forall k :: k + 2 < i ==> !TripleAt(text, k)
    {
      var c := text[i];
      if c < 0x20 && c != CR && c != NL && c != TAB {
        hasControl := true;
      }
      if c == DEL {
        hasControl := true;
      }
      if c == CR {
        hasCr := true;
      }
      if c == SPACE || c == TAB {
        if i + 1 >= |text| || text[i + 1] == NL {
          hasTrailingSpace := true;
        }
      }
      blankRun, maxBlankRun := CountRun(text, i, c, blankRun, maxBlankRun);
    }
    if text != [] && text[0] == NL {
      return true;
    }
    return hasControl || hasCr || hasTrailingSpace || maxBlankRun >= 3;
  }

  /** The bytes that survive the filter: tab, newline, carriage return, printable ASCII and
  everything beyond ASCII. */
  predicate Survives(c: Byte) {
    c == 0x09 || c == 0x0A || c == 0x0D || 0x20 <= c <= 0x7E || c >= 0x80
  }

  /** `kept` is what text has at the positions `at`, in order, and these are exactly the ones
  up to n with a byte that survives. */
  ghost predicate KeepsExactly(text: Text, n: nat, kept: Text, at: seq<nat>)
  {
    && n <= |text| && |at| == |kept|
    && (forall j, k :: 0 <= j < k < |at| ==> at[j] < at[k])
    && (forall k :: 0 <= k < |at| ==> at[k] < n && kept[k] == text[at[k]] && Survives(text[at[k]]))
    && (forall i :: 0 <= i < n && Survives(text[i]) ==> i in at)
  }

  lemma KeepsNext(text: Text, n: nat, kept: Text, at: seq<nat>)
    requires KeepsExactly(text, n, kept, at) && n < |text|
    ensures if Survives(text[n]) then KeepsExactly(text, n + 1, kept + [text[n]], at + [n])
            else KeepsExactly(text, n + 1, kept, at)
  {
    if Survives(text[n]) {
      assert forall i :: i in at ==> i in at + [n];
      assert (at + [n])[|at|] == n;
    }
  }

  /** The same for the part of the filter's result that is still to come. */
  lemma FilterNext(text: Text, n: nat, kept: Text)
    requires n < |text| && kept + Filter(text[n..]) == Filter(text)
    ensures (if Survives(text[n]) then kept + [text[n]] else kept) + Filter(text[n + 1..]) == Filter(text)
  {
    assert text[n..][1..] == text[n + 1..];
    FilterHead(text[n..]);
    Regroup(kept, [text[n]], Filter(text[n + 1..]));
  }

  lemma FilterHead(t: Text)
    requires t != []
    ensures Filter(t) == if Survives(t[0]) then [t[0]] + Filter(t[1..]) else Filter(t[1..])
  {
  }

  lemma Regroup(a: Text, b: Text, c: Text)
    ensures a + (b + c) == a + b + c
  {
  }

  method FilterBytes(text: Text) returns (kept: Text, ghost at: seq<nat>)
    ensures kept == Filter(text)
    ensures KeepsExactly(text, |text|, kept, at)
  {
    kept, at := [], [];
    assert text[0..] == text && kept + Filter(text) == Filter(text);
    for i := 0 to |text|
      invariant kept + Filter(text[i..]) == Filter(text)
      invariant KeepsExactly(text, i, kept, at)
    {
      KeepsNext(text, i, kept, at);
      FilterNext(text, i, kept);
      var c := text[i];
      if c < 0x20 && c != CR && c != NL && c != TAB {
        continue;
      }
      if c == DEL {
        continue;
      }
      kept, at := kept + [c], at + [i];
    }
  }

  method CleanEachLine(lines: seq<Text>) returns (result: seq<Text>)
    ensures result == CleanLines(lines)
  {
    result := [];
    assert lines[0..] == lines;
    for i := 0 to |lines|
      invariant result + CleanLines(lines[i..]) == CleanLines(lines)
    {
      assert lines[i..][1..] == lines[i + 1..];
      var line := AfterLastCr(lines[i]);
      line := TrimBlanks(line);
      result := result + [line];
    }
  }

  method Compact(text: Text) returns (r: Text)
    ensures r == Compacted(text)
  {
    if text == [] {
      return [];
    }
    var needs := NeedsCompact(text);
    if !needs {
      return text;
    }
    var cleaned, _ := FilterBytes(text);
    cleaned := CrLf(cleaned);
    var lines := Split(cleaned);
    var result := CleanEachLine(lines);
    cleaned := Join(result);
    cleaned := Fold(cleaned);
    cleaned := cleaned[Run(cleaned)..];
    if EndsInBlankLine(cleaned) {
      cleaned := TrimRightNl(cleaned);
    }
    return cleaned;
  }
}
