/** Shaping what a Read returned: strip, compact, limit the lines, and decide what goes
into the message log. */
module Output {
  import opened Bytes
  import opened Buffer
  import C = Compact
  import Laws = CompactLaws
  import S = Strip

  ghost function Shaped(data: Text, stripAnsi: bool, maxLines: int): Text
  {
    Limited(if stripAnsi then C.Compacted(S.Strip(data)) else data, maxLines)
  }

  /** The first maxLines lines; everything when maxLines is not positive. */
  function Limited(t: Text, maxLines: int): Text {
    if 0 < maxLines < |C.Split(t)| then C.Join(C.Split(t)[..maxLines]) else t
  }

  /** `shown` is `full`, or its longest prefix with fewer than maxLines newlines that stops in
  front of a newline. */
  ghost predicate Cut(shown: Text, full: Text, maxLines: int)
  {
    if maxLines <= 0 then shown == full
    else
      && shown <= full && Newlines(shown) < maxLines
      && (shown != full ==> Newlines(shown) == maxLines - 1 && shown + [NL] <= full)
  }

  /** `read` is what Buffer.Read returned. EOF is not an error here: it reads as no data. */
  method ReadOutput(read: Result<Text>, stripAnsi: bool, maxLines: int)
    returns (r: Result<Text>, logged: Option<Text>)
    ensures read.Err? && read.error != EOF ==> r == read && logged.None?
    ensures read.Ok? || read.error == EOF ==>
              && r == Ok(Shaped(if read.Ok? then read.value else [], stripAnsi, maxLines))
              && logged == if r.value != [] then Some(r.value) else None
    ensures read.Ok? && !stripAnsi ==> Cut(r.value, read.value, maxLines)
    ensures read.Ok? && stripAnsi ==> Cut(r.value, C.Compacted(S.Strip(read.value)), maxLines)
    ensures read == Err(EOF) ==> r.value == [] && logged.None?
  {
    if read.Err? && read.error != EOF {
      return read, None;
    }
    var output := if read.Ok? then read.value else [];
    ghost var data := output;
    if stripAnsi {
      output := S.Strip(output);
      output := C.Compact(output);
    }
    if maxLines > 0 {
      var lines := C.Split(output);
      if |lines| > maxLines {
        output := C.Join(lines[..maxLines]);
      }
    }
    CutIsLimited(if stripAnsi then C.Compacted(S.Strip(data)) else data, maxLines);
    assert stripAnsi && data == [] ==> S.Strip(data) == [];
    return Ok(output), if output != [] then Some(output) else None;
  }

  lemma CutIsLimited(t: Text, maxLines: int)
    ensures Cut(Limited(t, maxLines), t, maxLines)
  {
    if maxLines > 0 {
      LimitIsExact(t, maxLines);
    }
  }

  // ---- The line limit ------------------------------------------------------------

  function Newlines(t: Text): nat {
    if t == [] then 0 else (if t[0] == NL then 1 else 0) + Newlines(t[1..])
  }

  lemma {:induction false} SplitCounts(t: Text)
    ensures |C.Split(t)| == Newlines(t) + 1
  {
    if t != [] {
      SplitCounts(t[1..]);
    }
  }

  lemma {:induction false} LimitCuts(t: Text, k: nat)
    requires 0 < k < |C.Split(t)|
    ensures var p := C.Join(C.Split(t)[..k]);
            p + [NL] <= t && Newlines(p) == k - 1
  {
    if t != [] {
      var rest := C.Split(t[1..]);
      var lines := C.Split(t)[..k];
      if t[0] != NL {
        LimitCuts(t[1..], k);
        assert lines[1..] == rest[..k][1..];
        assert C.Join(lines) == [t[0]] + C.Join(rest[..k]);
      } else if k > 1 {
        LimitCuts(t[1..], k - 1);
        assert lines[1..] == rest[..k - 1];
        assert C.Join(lines) == [NL] + C.Join(rest[..k - 1]);
      }
    }
  }

  /** The limit keeps a prefix with at most maxLines - 1 newlines, and cuts only in front
  of the newline that would be one too many. */
  lemma LimitIsExact(t: Text, maxLines: int)
    requires maxLines > 0
    ensures var r := Limited(t, maxLines);
            && r <= t && Newlines(r) <= maxLines - 1
            && (r != t ==> Newlines(r) == maxLines - 1 && r + [NL] <= t)
            && (Newlines(t) < maxLines ==> r == t)
  {
    SplitCounts(t);
    if maxLines < |C.Split(t)| {
      LimitCuts(t, maxLines);
    }
  }

  // ---- The stages together ----------------------------------------------------------

  /** Stripped output contains no escape byte, is clean, and stays clean under the limit:
  compacting it again changes nothing. */
  lemma StrippedOutputIsClean(data: Text, maxLines: int)
    ensures var r := Shaped(data, true, maxLines);
            ESC !in r && C.Clean(r) && C.Compacted(r) == r
  {
    var full := C.Compacted(S.Strip(data));
    Laws.CompactIsClean(S.Strip(data));
    var r := Shaped(data, true, maxLines);
    if maxLines > 0 {
      LimitIsExact(full, maxLines);
      Laws.CleanPrefix(full, |r|);
      assert r == full[..|r|];
    }
    Laws.FixedPoints(r);
  }
}
