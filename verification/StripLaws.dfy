/** Stripping twice, and stripping text that arrives in pieces. */
module StripLaws {
  import opened Bytes
  import opened S = Strip

  // ---- When a second strip changes nothing -----------------------------------------

  /** The first byte at or after i that the scan keeps and that is not intermediate. */
  function Survivor(t: Text, ends: Ends, i: nat): Option<Byte>
    requires |ends| == |t| && i <= |t|
    decreases |t| - i
  {
    if i == |t| then None
    else
      match ends[i]
      case Some(j) => Survivor(t, ends, j)
      case None => if In(INTERMEDIATE, t[i]) then Survivor(t, ends, i + 1) else Some(t[i])
  }

  /** No ESC that the scan keeps meets, in what else it keeps, a byte that ends a short
  sequence. */
  predicate Calm(t: Text, ends: Ends, i: nat)
    requires |ends| == |t| && i <= |t|
    decreases |t| - i
  {
    if i == |t| then true
    else
      match ends[i]
      case Some(j) => Calm(t, ends, j)
      case None =>
        var next := Survivor(t, ends, i + 1);
        (t[i] == ESC && next.Some? ==> !In(SHORT_FINAL, next.value)) && Calm(t, ends, i + 1)
  }

  /** One scan of the input decides it. */
  predicate Settled(t: Text) {
    Calm(t, EndsOf(t), 0)
  }

  lemma {:induction false} ScanShrinks(t: Text, ends: Ends, i: nat)
    requires |ends| == |t| && i <= |t|
    ensures |Scan(t, ends, i)| <= |t| - i
    decreases |t| - i
  {
    if i < |t| {
      ScanShrinks(t, ends, if ends[i].Some? then ends[i].value else i + 1);
    }
  }

  ghost predicate NoneFrom(ends: Ends, i: nat)
  {
    forall k :: i <= k < |ends| ==> ends[k].None?
  }

  /** A scan changes nothing exactly when it meets no sequence. */
  lemma {:induction false} ScanFixes(v: Text, ends: Ends, i: nat)
    requires |ends| == |v| && i <= |v|
    ensures Scan(v, ends, i) == v[i..] <==> NoneFrom(ends, i)
    decreases |v| - i
  {
    if i < |v| {
      if ends[i].Some? {
        ScanShrinks(v, ends, ends[i].value);
      } else {
        ScanFixes(v, ends, i + 1);
        assert v[i..] == [v[i]] + v[i + 1..];
        PrependBoth(v[i], Scan(v, ends, i + 1), v[i + 1..], []);
        assert NoneFrom(ends, i) <==> NoneFrom(ends, i + 1);
      }
    }
  }

  /** Survivor is the first byte of the scan's result that is not intermediate. */
  lemma {:induction false} SurvivorIs(t: Text, ends: Ends, i: nat, kept: Text)
    requires |ends| == |t| && i <= |t|
    ensures var v := kept + Scan(t, ends, i);
            var j := Skip(INTERMEDIATE, v, |kept|);
            Survivor(t, ends, i) == if j < |v| then Some(v[j]) else None
    decreases |t| - i
  {
    if i < |t| {
      match ends[i]
      case Some(j) => SurvivorIs(t, ends, j, kept);
      case None =>
        assert kept + Scan(t, ends, i) == kept + [t[i]] + Scan(t, ends, i + 1);
        SurvivorIs(t, ends, i + 1, kept + [t[i]]);
    }
  }

  /** The byte at k is an ESC, and the first byte after it that is not intermediate ends a
  short sequence. */
  predicate Live(v: Text, k: nat)
    requires k < |v|
  {
    v[k] == ESC && var j := Skip(INTERMEDIATE, v, k + 1); j < |v| && In(SHORT_FINAL, v[j])
  }

  /** A sequence starts exactly there. */
  lemma LiveIsSequence(v: Text, k: nat)
    requires k < |v|
    ensures SequenceAt(v, k).Some? <==> Live(v, k)
  {
    if v[k] == ESC {
      SequenceIsFirst(v, k);
      MatchedIffShortMatches(v, k);
      ShortEnd(v, k + 1);
    }
  }

  ghost predicate Lifeless(v: Text, i: nat)
  {
    forall k :: i <= k < |v| ==> !Live(v, k)
  }

  lemma LifelessStep(v: Text, i: nat)
    requires i < |v|
    ensures Lifeless(v, i) <==> !Live(v, i) && Lifeless(v, i + 1)
  {
  }

  lemma {:induction false} CalmIsLifeless(t: Text, ends: Ends, i: nat, kept: Text)
    requires |ends| == |t| && i <= |t|
    ensures Calm(t, ends, i) <==> Lifeless(kept + Scan(t, ends, i), |kept|)
    decreases |t| - i
  {
    if i < |t| {
      match ends[i]
      case Some(j) => CalmIsLifeless(t, ends, j, kept);
      case None =>
        var more := kept + [t[i]];
        var v := more + Scan(t, ends, i + 1);
        assert kept + Scan(t, ends, i) == v && v[|kept|] == t[i];
        CalmIsLifeless(t, ends, i + 1, more);
        LifelessStep(v, |kept|);
        SurvivorIs(t, ends, i + 1, more);
    }
  }

  lemma Restrip(v: Text)
    ensures Scan(v, EndsOf(v), 0) == v <==> Lifeless(v, 0)
  {
    ScanFixes(v, EndsOf(v), 0);
    forall k | 0 <= k < |v|
      ensures EndsOf(v)[k].None? <==> !Live(v, k)
    {
      LiveIsSequence(v, k);
    }
  }

  /** Stripping twice is stripping once exactly on settled input. */
  lemma StripTwice(t: Text)
    ensures Strip(Strip(t)) == Strip(t) <==> Settled(t)
  {
    var v := Strip(t);
    ScanIsStrip(t);
    ScanIsStrip(v);
    CalmIsLifeless(t, EndsOf(t), 0, []);
    assert [] + v == v;
    Restrip(v);
  }

  /** Stripping once is not stripping for good: an ESC that matches nothing is kept and can
  meet the rest of another sequence once what stood between them is gone. */
  lemma StripIsNotIdempotent() returns (t: Text)
    ensures Strip(t) == [ESC, 0x5B, 0x6D] && Strip(Strip(t)) == [] && !Settled(t)
  {
    t := [ESC, ESC, 0x5B, 0x6D, 0x5B, 0x6D];
    var ends := EndsOf(t);
    ScanIsStrip(t);
    assert ends[0] == None && ends[1] == Some(4) && ends[4] == None && ends[5] == None;
    assert Scan(t, ends, 6) == [] && Scan(t, ends, 5) == [0x6D] && Scan(t, ends, 4) == [0x5B, 0x6D];
    assert Scan(t, ends, 1) == [0x5B, 0x6D];
    var u := [ESC, 0x5B, 0x6D];
    ScanIsStrip(u);
    assert EndsOf(u)[0] == Some(3);
    StripTwice(t);
  }

  // ---- Text that arrives in pieces ---------------------------------------------------

  /** From i on, sequences follow one another without a gap and end at j. */
  predicate Covered(ends: Ends, i: nat, j: nat)
    requires i <= j <= |ends|
    decreases j - i
  {
    i == j || (ends[i].Some? && ends[i].value <= j && Covered(ends, ends[i].value, j))
  }

  /** Along the scan of t = a + b from i, every sequence ends inside a, or reaches into b and
  its part in either piece consists of whole sequences of that piece. */
  predicate Parts(a: Text, endsA: Ends, b: Text, endsB: Ends, ends: Ends, i: nat)
    requires |endsA| == |a| && |endsB| == |b| && |ends| == |a| + |b| && i <= |a|
    decreases |a| - i
  {
    if i == |a| then true
    else
      match ends[i]
      case None => Parts(a, endsA, b, endsB, ends, i + 1)
      case Some(j) =>
        if j <= |a| then Parts(a, endsA, b, endsB, ends, j)
        else Covered(endsA, i, |a|) && Covered(endsB, 0, j - |a|)
  }

  predicate Separable(a: Text, b: Text) {
    Parts(a, EndsOf(a), b, EndsOf(b), EndsOf(a + b), 0)
  }

  /** b is what t holds from n on. */
  ghost predicate EndsIn(t: Text, n: nat, b: Text)
  {
    |t| == n + |b| && forall i :: n <= i < |t| ==> t[i] == b[i - n]
  }

  function Shifted(e: Option<nat>, n: nat): Option<nat> {
    if e.Some? then Some(e.value + n) else None
  }

  /** A sequence inside b ends at the same place in t. */
  ghost predicate Shifts(ends: Ends, n: nat, endsB: Ends)
  {
    |ends| == n + |endsB| && forall i :: 0 <= i < |endsB| ==> ends[n + i] == Shifted(endsB[i], n)
  }

  lemma {:induction false} SkipShift(c: Class, t: Text, n: nat, b: Text, i: nat)
    requires EndsIn(t, n, b) && i <= |b|
    ensures Skip(c, t, n + i) == n + Skip(c, b, i)
    decreases |b| - i
  {
    if i < |b| {
      assert t[n + i] == b[i];
      if In(c, b[i]) {
        SkipShift(c, t, n, b, i + 1);
      }
    }
  }

  lemma {:induction false} OscShift(t: Text, n: nat, b: Text, i: nat)
    requires EndsIn(t, n, b)
    ensures OscEnd(t, n + i) == Shifted(OscEnd(b, i), n)
    decreases |b| - i
  {
    if i < |b| {
      assert t[n + i] == b[i] && (i + 1 < |b| ==> t[n + i + 1] == b[i + 1]);
      OscShift(t, n, b, i + 1);
    }
  }

  lemma FinalShift(c: Class, t: Text, n: nat, b: Text, i: nat)
    requires EndsIn(t, n, b) && i <= |b|
    ensures FinalAt(t, c, n + i) == Shifted(FinalAt(b, c, i), n)
  {
    assert i < |b| ==> t[n + i] == b[i];
  }

  lemma CsiShift(t: Text, n: nat, b: Text, i: nat)
    requires EndsIn(t, n, b) && i <= |b|
    ensures CsiTail(t, n + i) == Shifted(CsiTail(b, i), n)
  {
    var j := Skip(PARAMETER, b, i);
    SkipShift(PARAMETER, t, n, b, i);
    SkipShift(INTERMEDIATE, t, n, b, j);
    FinalShift(FINAL, t, n, b, Skip(INTERMEDIATE, b, j));
  }

  lemma ShortShift(t: Text, n: nat, b: Text, i: nat)
    requires EndsIn(t, n, b) && i <= |b|
    ensures ShortTail(t, n + i) == Shifted(ShortTail(b, i), n)
  {
    SkipShift(INTERMEDIATE, t, n, b, i);
    FinalShift(SHORT_FINAL, t, n, b, Skip(INTERMEDIATE, b, i));
  }

  lemma LongShift(t: Text, n: nat, b: Text, i: nat)
    requires EndsIn(t, n, b) && i <= |b|
    ensures LongTail(t, n + i) == Shifted(LongTail(b, i), n)
  {
    if i < |b| {
      assert t[n + i] == b[i];
      if b[i] == 0x5D {
        OscShift(t, n, b, i + 1);
      } else {
        CsiShift(t, n, b, i + 1);
      }
    }
  }

  lemma SequenceShift(t: Text, n: nat, b: Text, i: nat)
    requires EndsIn(t, n, b) && i < |b|
    ensures SequenceAt(t, n + i) == Shifted(SequenceAt(b, i), n)
  {
    assert t[n + i] == b[i];
    if b[i] == ESC {
      EscShift(t, n, b, i + 1);
    }
  }

  lemma EscShift(t: Text, n: nat, b: Text, i: nat)
    requires EndsIn(t, n, b) && i <= |b|
    ensures EscEnd(t, n + i) == Shifted(EscEnd(b, i), n)
  {
    LongShift(t, n, b, i);
    ShortShift(t, n, b, i);
    EitherShifts(LongTail(b, i), ShortTail(b, i), n);
  }

  lemma EitherShifts(long: Option<nat>, short: Option<nat>, n: nat)
    ensures Shifted(OrElse(long, short), n) == OrElse(Shifted(long, n), Shifted(short, n))
  {
  }

  lemma EndsShift(t: Text, n: nat, b: Text)
    requires EndsIn(t, n, b)
    ensures Shifts(EndsOf(t), n, EndsOf(b))
  {
    forall i | 0 <= i < |b|
      ensures EndsOf(t)[n + i] == Shifted(EndsOf(b)[i], n)
    {
      SequenceShift(t, n, b, i);
    }
  }

  lemma {:induction false} ScanShift(t: Text, ends: Ends, n: nat, b: Text, endsB: Ends, i: nat)
    requires EndsIn(t, n, b) && |ends| == |t| && |endsB| == |b| && Shifts(ends, n, endsB) && i <= |b|
    ensures Scan(t, ends, n + i) == Scan(b, endsB, i)
    decreases |b| - i
  {
    if i < |b| {
      assert ends[n + i] == Shifted(endsB[i], n) && t[n + i] == b[i];
      ScanShift(t, ends, n, b, endsB, if endsB[i].Some? then endsB[i].value else i + 1);
    }
  }

  // What follows a can only turn an end, or the lack of one, into an end beyond a.

  ghost predicate Extends(whole: Option<nat>, part: Option<nat>, n: nat)
  {
    whole == part || (whole.Some? && whole.value > n)
  }

  lemma {:induction false} SkipExtends(c: Class, a: Text, t: Text, i: nat)
    requires a <= t && i <= |a|
    ensures if Skip(c, a, i) < |a| then Skip(c, t, i) == Skip(c, a, i) else Skip(c, t, i) >= |a|
    decreases |a| - i
  {
    if i < |a| && In(c, a[i]) {
      SkipExtends(c, a, t, i + 1);
    }
  }

  lemma {:induction false} OscExtends(a: Text, t: Text, i: nat)
    requires a <= t && i <= |a|
    ensures Extends(OscEnd(t, i), OscEnd(a, i), |a|)
    decreases |a| - i
  {
    if i < |a| {
      OscExtends(a, t, i + 1);
    }
  }

  lemma CsiExtends(a: Text, t: Text, i: nat)
    requires a <= t && i <= |a|
    ensures Extends(CsiTail(t, i), CsiTail(a, i), |a|)
  {
    SkipExtends(PARAMETER, a, t, i);
    SkipExtends(INTERMEDIATE, a, t, Skip(PARAMETER, a, i));
  }

  lemma ShortExtends(a: Text, t: Text, i: nat)
    requires a <= t && i <= |a|
    ensures Extends(ShortTail(t, i), ShortTail(a, i), |a|)
  {
    SkipExtends(INTERMEDIATE, a, t, i);
  }

  lemma LongExtends(a: Text, t: Text, i: nat)
    requires a <= t && i <= |a|
    ensures Extends(LongTail(t, i), LongTail(a, i), |a|)
  {
    if i < |a| {
      assert t[i] == a[i];
      if a[i] == 0x5D {
        OscExtends(a, t, i + 1);
      } else {
        CsiExtends(a, t, i + 1);
      }
    }
  }

  lemma SequenceExtends(a: Text, t: Text, i: nat)
    requires a <= t && i < |a|
    ensures Extends(SequenceAt(t, i), SequenceAt(a, i), |a|)
  {
    assert t[i] == a[i];
    if a[i] == ESC {
      EscExtends(a, t, i + 1);
    }
  }

  lemma EscExtends(a: Text, t: Text, i: nat)
    requires a <= t && i <= |a|
    ensures Extends(EscEnd(t, i), EscEnd(a, i), |a|)
  {
    LongExtends(a, t, i);
    ShortExtends(a, t, i);
    EitherExtends(LongTail(t, i), LongTail(a, i), ShortTail(t, i), ShortTail(a, i), |a|);
  }

  lemma EitherExtends(whole: Option<nat>, part: Option<nat>, short: Option<nat>, shortPart: Option<nat>, n: nat)
    requires Extends(whole, part, n) && Extends(short, shortPart, n)
    ensures Extends(OrElse(whole, short), OrElse(part, shortPart), n)
  {
  }

  // A sequence that reaches into b leaves the scan of b, started afresh, in step again.

  /** A sequence is an operating-system command, or it has no byte below 0x20. */
  lemma Body(t: Text, i: nat)
    requires i <= |t| && EscEnd(t, i).Some?
    ensures (i < |t| && t[i] == 0x5D && OscEnd(t, i + 1) == EscEnd(t, i))
            || forall k :: i <= k < EscEnd(t, i).value ==> t[k] >= 0x20
  {
  }

  lemma {:induction false} CoveredShows(t: Text, ends: Ends, i: nat, j: nat)
    requires |ends| == |t| && i <= j <= |t| && Covered(ends, i, j)
    ensures Scan(t, ends, i) == Scan(t, ends, j)
    decreases j - i
  {
    if i < j {
      CoveredShows(t, ends, ends[i].value, j);
    }
  }

  /** A scan shows nothing exactly where sequences cover the rest. */
  lemma {:induction false} CoveredIsBlank(t: Text, ends: Ends, i: nat)
    requires |ends| == |t| && i <= |t|
    ensures Scan(t, ends, i) == [] <==> Covered(ends, i, |t|)
    decreases |t| - i
  {
    if i < |t| && ends[i].Some? {
      CoveredIsBlank(t, ends, ends[i].value);
    }
  }

  ghost predicate OnlyAtEsc(t: Text, ends: Ends)
  {
    |ends| == |t| && forall k :: 0 <= k < |t| && t[k] != ESC ==> ends[k].None?
  }

  lemma {:induction false} PlainScan(t: Text, ends: Ends, i: nat, j: nat)
    requires OnlyAtEsc(t, ends) && i <= j <= |t| && forall k :: i <= k < j ==> t[k] >= 0x20
    ensures |Scan(t, ends, i)| == |Scan(t, ends, j)| + (j - i)
    decreases j - i
  {
    if i < j {
      PlainScan(t, ends, i + 1, j);
    }
  }

  lemma {:induction false} OscSkipsPlain(t: Text, i: nat, j: nat)
    requires i <= j <= |t| && OscEnd(t, i).Some? && forall k :: i <= k < j ==> t[k] >= 0x20
    ensures OscEnd(t, j) == OscEnd(t, i)
    decreases j - i
  {
    if i < j {
      OscSkipsPlain(t, i + 1, j);
    }
  }

  /** A sequence met inside a command ends inside it, or with it. */
  lemma OscInside(t: Text, i: nat)
    requires i < |t| && OscEnd(t, i).Some? && SequenceAt(t, i).Some?
    ensures SequenceAt(t, i) == OscEnd(t, i) || OscEnd(t, SequenceAt(t, i).value) == OscEnd(t, i)
  {
    Body(t, i + 1);
    if t[i + 1] == 0x5D && OscEnd(t, i + 2) == EscEnd(t, i + 1) {
      assert OscEnd(t, i) == OscEnd(t, i + 2);
    } else if t[i + 1] != BACKSLASH {
      OscSkipsPlain(t, i + 1, SequenceAt(t, i).value);
    }
  }

  /** A scan from i passes e too, and shows more than one from e unless sequences cover what
  lies between. */
  ghost predicate InStep(t: Text, ends: Ends, i: nat, e: nat)
    requires |ends| == |t| && i <= e <= |t|
  {
    |Scan(t, ends, e)| < |Scan(t, ends, i)| || Covered(ends, i, e)
  }

  lemma {:induction false} OscScan(t: Text, i: nat)
    requires i <= |t| && OscEnd(t, i).Some?
    ensures InStep(t, EndsOf(t), i, OscEnd(t, i).value)
    decreases |t| - i
  {
    var end := OscEnd(t, i).value;
    if SequenceAt(t, i).Some? {
      OscInside(t, i);
      var j := SequenceAt(t, i).value;
      if j != end {
        OscScan(t, j);
        NextInStep(t, EndsOf(t), i, end);
      } else {
        assert Covered(EndsOf(t), end, end);
      }
    } else if t[i] != BEL {
      OscScan(t, i + 1);
      NextInStep(t, EndsOf(t), i, end);
    }
  }

  /** Being in step carries over one step of the scan, to more bytes or another sequence. */
  lemma NextInStep(t: Text, ends: Ends, i: nat, e: nat)
    requires |ends| == |t| && i < e <= |t|
    requires ends[i].Some? ==> ends[i].value <= e && InStep(t, ends, ends[i].value, e)
    requires ends[i].None? ==> InStep(t, ends, i + 1, e)
    ensures InStep(t, ends, i, e)
  {
    if ends[i].None? && Covered(ends, i + 1, e) {
      CoveredShows(t, ends, i + 1, e);
    }
  }

  /** The terminator lies in b, or its two bytes lie on either side of the cut. */
  lemma {:induction false} OscCrosses(t: Text, n: nat, b: Text, i: nat)
    requires EndsIn(t, n, b) && i <= n && OscEnd(t, i).Some? && OscEnd(t, i).value > n
    ensures OscEnd(b, 0) == Some(OscEnd(t, i).value - n) || (OscEnd(t, i) == Some(n + 1) && b[0] == BACKSLASH)
    decreases n - i
  {
    if i == n {
      OscShift(t, n, b, 0);
    } else {
      assert t[n] == b[0];
      if i + 1 < n || t[i] != ESC || b[0] != BACKSLASH {
        OscCrosses(t, n, b, i + 1);
      }
    }
  }

  lemma PlainTail(t: Text, n: nat, b: Text, i: nat, end: nat)
    requires EndsIn(t, n, b) && i <= n < end <= |t| && forall k :: i <= k < end ==> t[k] >= 0x20
    ensures InStep(b, EndsOf(b), 0, end - n)
  {
    forall k | 0 <= k < end - n
      ensures b[k] >= 0x20
    {
      assert t[n + k] == b[k];
    }
    PlainScan(b, EndsOf(b), 0, end - n);
  }

  lemma CommandTail(t: Text, n: nat, b: Text, i: nat)
    requires EndsIn(t, n, b) && i <= n && OscEnd(t, i).Some? && OscEnd(t, i).value > n
    ensures InStep(b, EndsOf(b), 0, OscEnd(t, i).value - n)
  {
    OscCrosses(t, n, b, i);
    if OscEnd(b, 0) == Some(OscEnd(t, i).value - n) {
      OscScan(b, 0);
    } else {
      FirstIsKept(b);
      assert |Scan(b, EndsOf(b), 1)| < |Scan(b, EndsOf(b), 0)|;
    }
  }

  /** The same when only the ESC of the command is in a. */
  lemma CommandJustInside(t: Text, n: nat, b: Text)
    requires EndsIn(t, n, b) && OscEnd(t, n + 1).Some? && b != [] && b[0] == 0x5D
    ensures InStep(b, EndsOf(b), 0, OscEnd(t, n + 1).value - n)
  {
    OscShift(t, n, b, 1);
    var end := OscEnd(b, 1).value;
    assert OscEnd(t, n + 1).value - n == end;
    OscScan(b, 1);
    FirstIsKept(b);
    NextInStep(b, EndsOf(b), 0, end);
  }

  lemma FirstIsKept(b: Text)
    requires b != [] && b[0] != ESC
    ensures Scan(b, EndsOf(b), 0) == [b[0]] + Scan(b, EndsOf(b), 1)
  {
    assert EndsOf(b)[0].None?;
  }

  /** The two forms that a sequence after an ESC can have, up to its end. */
  ghost predicate Form(t: Text, i: nat, end: nat)
    requires i <= end <= |t|
  {
    (i < end && t[i] == 0x5D && OscEnd(t, i + 1) == Some(end)) || forall k :: i <= k < end ==> t[k] >= 0x20
  }

  lemma SequenceForm(t: Text, i: nat)
    requires i < |t| && SequenceAt(t, i).Some?
    ensures i + 1 <= SequenceAt(t, i).value && Form(t, i + 1, SequenceAt(t, i).value)
  {
    Body(t, i + 1);
  }

  lemma InStepAgain(t: Text, n: nat, b: Text, i: nat, end: nat)
    requires EndsIn(t, n, b) && i < n < end <= |t| && Form(t, i + 1, end)
    ensures InStep(b, EndsOf(b), 0, end - n)
  {
    if forall k :: i + 1 <= k < end ==> t[k] >= 0x20 {
      PlainTail(t, n, b, i + 1, end);
    } else if i + 1 < n {
      CommandTail(t, n, b, i + 2);
    } else {
      assert t[n] == b[0];
      CommandJustInside(t, n, b);
    }
  }

  ghost predicate AllExtend(ends: Ends, endsA: Ends)
  {
    |endsA| <= |ends| && forall i :: 0 <= i < |endsA| ==> Extends(ends[i], endsA[i], |endsA|)
  }

  ghost predicate ReachesInStep(ends: Ends, n: nat, b: Text, endsB: Ends, i: nat)
    requires |ends| == n + |b| && |endsB| == |b| && i < n
  {
    ends[i].Some? && ends[i].value > n ==> InStep(b, endsB, 0, ends[i].value - n)
  }

  ghost predicate AllInStep(ends: Ends, n: nat, b: Text, endsB: Ends)
  {
    && |ends| == n + |b| && |endsB| == |b|
    && forall i :: 0 <= i < n ==> ReachesInStep(ends, n, b, endsB, i)
  }

  lemma EndsExtend(a: Text, t: Text)
    requires a <= t
    ensures AllExtend(EndsOf(t), EndsOf(a))
  {
    forall i | 0 <= i < |a|
      ensures Extends(EndsOf(t)[i], EndsOf(a)[i], |a|)
    {
      SequenceExtends(a, t, i);
    }
  }

  lemma EndsInStep(t: Text, n: nat, b: Text)
    requires EndsIn(t, n, b)
    ensures AllInStep(EndsOf(t), n, b, EndsOf(b))
  {
    forall i | 0 <= i < n
      ensures ReachesInStep(EndsOf(t), n, b, EndsOf(b), i)
    {
      EndInStep(t, n, b, i);
    }
  }

  lemma EndInStep(t: Text, n: nat, b: Text, i: nat)
    requires EndsIn(t, n, b) && i < n
    ensures ReachesInStep(EndsOf(t), n, b, EndsOf(b), i)
  {
    var e := SequenceAt(t, i);
    assert EndsOf(t)[i] == e;
    if e.Some? && e.value > n {
      SequenceForm(t, i);
      InStepAgain(t, n, b, i, e.value);
    }
  }

  lemma {:induction false} ScanPieces(a: Text, endsA: Ends, b: Text, endsB: Ends, t: Text, ends: Ends, i: nat)
    requires t == a + b && |endsA| == |a| && |endsB| == |b| && i <= |a|
    requires Shifts(ends, |a|, endsB) && AllExtend(ends, endsA) && AllInStep(ends, |a|, b, endsB)
    ensures Scan(t, ends, i) == Scan(a, endsA, i) + Scan(b, endsB, 0) <==> Parts(a, endsA, b, endsB, ends, i)
    decreases |a| - i
  {
    assert EndsIn(t, |a|, b);
    if i == |a| {
      ScanShift(t, ends, |a|, b, endsB, 0);
    } else {
      assert Extends(ends[i], endsA[i], |a|) && ReachesInStep(ends, |a|, b, endsB, i) && t[i] == a[i];
      match ends[i]
      case None =>
        ScanPieces(a, endsA, b, endsB, t, ends, i + 1);
        PrependBoth(a[i], Scan(t, ends, i + 1), Scan(a, endsA, i + 1), Scan(b, endsB, 0));
      case Some(j) =>
        if j <= |a| {
          ScanPieces(a, endsA, b, endsB, t, ends, j);
        } else {
          Straddles(a, endsA, b, endsB, t, ends, i);
        }
    }
  }

  lemma Straddles(a: Text, endsA: Ends, b: Text, endsB: Ends, t: Text, ends: Ends, i: nat)
    requires EndsIn(t, |a|, b) && |endsA| == |a| && |endsB| == |b| && i < |a|
    requires Shifts(ends, |a|, endsB) && ends[i].Some? && ends[i].value > |a|
    requires InStep(b, endsB, 0, ends[i].value - |a|)
    ensures Scan(t, ends, i) == Scan(a, endsA, i) + Scan(b, endsB, 0)
            <==> Covered(endsA, i, |a|) && Covered(endsB, 0, ends[i].value - |a|)
  {
    var e := ends[i].value - |a|;
    ScanShift(t, ends, |a|, b, endsB, e);
    assert Scan(t, ends, i) == Scan(b, endsB, e);
    CoveredIsBlank(a, endsA, i);
    NothingShown(b, endsB, e, Scan(a, endsA, i));
  }

  lemma NothingShown(b: Text, ends: Ends, e: nat, shown: Text)
    requires |ends| == |b| && e <= |b| && InStep(b, ends, 0, e)
    ensures Scan(b, ends, e) == shown + Scan(b, ends, 0) <==> shown == [] && Covered(ends, 0, e)
  {
    if Covered(ends, 0, e) {
      CoveredShows(b, ends, 0, e);
    }
  }

  lemma PrependBoth(c: Byte, x: Text, y: Text, z: Text)
    ensures [c] + x == [c] + y + z <==> x == y + z
  {
    assert [c] + y + z == [c] + (y + z);
    assert ([c] + x)[1..] == x && ([c] + (y + z))[1..] == y + z;
  }

  /** Output stripped in two pieces is output stripped whole exactly when no sequence
  straddles the cut, unless both its parts are themselves made of sequences. */
  lemma StripInPieces(a: Text, b: Text)
    ensures Strip(a + b) == Strip(a) + Strip(b) <==> Separable(a, b)
  {
    ScanIsStrip(a + b);
    ScanIsStrip(a);
    ScanIsStrip(b);
    var t := a + b;
    EndsShift(t, |a|, b);
    EndsExtend(a, t);
    EndsInStep(t, |a|, b);
    ScanPieces(a, EndsOf(a), b, EndsOf(b), t, EndsOf(t), 0);
  }

  /** A colour code cut in two shows both its halves. */
  lemma CutSequenceLeaks() returns (a: Text, b: Text)
    ensures Strip(a + b) == [] && Strip(a) + Strip(b) == [0x31, 0x6D] && !Separable(a, b)
  {
    a, b := [ESC, 0x5B, 0x31], [0x6D];
    var t := a + b;
    ScanIsStrip(t);
    ScanIsStrip(a);
    ScanIsStrip(b);
    assert t == [ESC, 0x5B, 0x31, 0x6D];
    assert Skip(PARAMETER, t, 2) == 3 && Skip(INTERMEDIATE, t, 3) == 3 && CsiTail(t, 2) == Some(4);
    assert EndsOf(t)[0] == Some(4);
    assert EndsOf(a)[0] == Some(2) && Scan(a, EndsOf(a), 3) == [] && Scan(a, EndsOf(a), 2) == [0x31];
    assert Scan(b, EndsOf(b), 1) == [] && Scan(b, EndsOf(b), 0) == [0x6D];
    StripInPieces(a, b);
  }
}
