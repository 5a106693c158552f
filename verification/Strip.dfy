/** Removing ANSI escape sequences with a leftmost-first regular expression, and a
deterministic scanner that computes the same text without backtracking. */
module Strip {
  import opened Bytes

  // ---- Leftmost-first regular expressions ---------------------------------------

  datatype Class = Range(lo: Byte, hi: Byte) | OneOf(bytes: seq<Byte>) | NotNewline

  predicate In(c: Class, b: Byte) {
    match c
    case Range(lo, hi) => lo <= b <= hi
    case OneOf(bytes) => b in bytes
    case NotNewline => b != NL
  }

  /** A regular expression in continuation form: `Many` is a greedy and `Few` a lazy
  repetition of a class, and `Alt` prefers its first branch. Repetitions of classes are
  the only ones the source's expression has. */
  datatype Pattern =
    | Accept
    | One(c: Class, next: Pattern)
    | Many(c: Class, next: Pattern)
    | Few(c: Class, next: Pattern)
    | Alt(first: Pattern, second: Pattern)

  /** Where the preferred match starting at i ends: the backtracking search, trying
  branches and repetition counts in order of preference. */
  function First(p: Pattern, t: Text, i: nat): (r: Option<nat>)
    requires i <= |t|
    ensures r.Some? ==> i <= r.value <= |t|
    decreases |t| - i, p
  {
    match p
    case Accept => Some(i)
    case One(c, next) => if i < |t| && In(c, t[i]) then First(next, t, i + 1) else None
    case Many(c, next) =>
      if i < |t| && In(c, t[i]) then OrElse(First(p, t, i + 1), First(next, t, i)) else First(next, t, i)
    case Few(c, next) =>
      if i < |t| && In(c, t[i]) then OrElse(First(next, t, i), First(p, t, i + 1)) else First(next, t, i)
    case Alt(first, second) => OrElse(First(first, t, i), First(second, t, i))
  }

  /** i..j is one of the strings the expression denotes. */
  ghost predicate Matches(p: Pattern, t: Text, i: nat, j: nat)
    requires i <= |t|
    decreases |t| - i, p
  {
    match p
    case Accept => i == j
    case One(c, next) => i < |t| && In(c, t[i]) && Matches(next, t, i + 1, j)
    case Many(c, next) => Matches(next, t, i, j) || (i < |t| && In(c, t[i]) && Matches(p, t, i + 1, j))
    case Few(c, next) => Matches(next, t, i, j) || (i < |t| && In(c, t[i]) && Matches(p, t, i + 1, j))
    case Alt(first, second) => Matches(first, t, i, j) || Matches(second, t, i, j)
  }

  /** The search is sound and complete: it succeeds exactly when something matches, and
  what it returns matches. */
  lemma {:induction false} FirstIsAMatch(p: Pattern, t: Text, i: nat)
    requires i <= |t|
    ensures match First(p, t, i)
            case Some(j) => Matches(p, t, i, j)
            case None => forall j: nat :: !Matches(p, t, i, j)
    decreases |t| - i, p
  {
    match p
    case Accept =>
    case One(c, next) =>
      if i < |t| && In(c, t[i]) {
        FirstIsAMatch(next, t, i + 1);
      }
    case Many(c, next) =>
      FirstIsAMatch(next, t, i);
      if i < |t| && In(c, t[i]) {
        FirstIsAMatch(p, t, i + 1);
      }
    case Few(c, next) =>
      FirstIsAMatch(next, t, i);
      if i < |t| && In(c, t[i]) {
        FirstIsAMatch(p, t, i + 1);
      }
    case Alt(first, second) =>
      FirstIsAMatch(first, t, i);
      FirstIsAMatch(second, t, i);
  }

  /** ReplaceAllString on t[i..]: put `with` for each leftmost match, copy the bytes between. */
  function ReplaceAll(p: Pattern, with: Text, t: Text, i: nat): Text
    requires i <= |t|
    decreases |t| - i
  {
    if i == |t| then []
    else
      match First(p, t, i)
      case Some(j) => if j > i then with + ReplaceAll(p, with, t, j) else [t[i]] + ReplaceAll(p, with, t, i + 1)
      case None => [t[i]] + ReplaceAll(p, with, t, i + 1)
  }

  function RemoveAll(p: Pattern, t: Text, i: nat): Text
    requires i <= |t|
  {
    ReplaceAll(p, [], t, i)
  }

  // ---- The source's expression ----------------------------------------------------

  const PARAMETER := Range(0x30, 0x3F)
  const INTERMEDIATE := Range(0x20, 0x2F)
  const FINAL := Range(0x40, 0x7E)
  const SHORT_FINAL := Range(0x30, 0x7E)

  function Csi(): Pattern {
    One(OneOf([0x5B, 0x28]), Many(PARAMETER, Many(INTERMEDIATE, One(FINAL, Accept))))
  }

  function OscTail(): Pattern {
    Alt(One(OneOf([ESC]), One(OneOf([BACKSLASH]), Accept)), One(OneOf([BEL]), Accept))
  }

  function Osc(): Pattern {
    One(OneOf([0x5D]), Few(NotNewline, OscTail()))
  }

  function Charset(): Pattern {
    One(OneOf([0x28, 0x29]), One(OneOf([0x42, 0x62, 0x30, 0x55, 0x4B]), Accept))
  }

  function TwoByte(): Pattern {
    Many(INTERMEDIATE, One(SHORT_FINAL, Accept))
  }

  function Ansi(): Pattern {
    One(OneOf([ESC]), Alt(Csi(), Alt(Osc(), Alt(Charset(), TwoByte()))))
  }

  function Strip(t: Text): Text {
    RemoveAll(Ansi(), t, 0)
  }

  // ---- A deterministic scanner -----------------------------------------------------

  /** The end of the run of class c that starts at i. */
  function Skip(c: Class, t: Text, i: nat): (j: nat)
    requires i <= |t|
    ensures i <= j <= |t| && (forall k :: i <= k < j ==> In(c, t[k])) && (j < |t| ==> !In(c, t[j]))
    decreases |t| - i
  {
    if i < |t| && In(c, t[i]) then Skip(c, t, i + 1) else i
  }

  function FinalAt(t: Text, c: Class, i: nat): (r: Option<nat>)
    ensures r.Some? ==> i < r.value <= |t|
  {
    if i < |t| && In(c, t[i]) then Some(i + 1) else None
  }

  /** The end of an operating-system command whose text starts at i: BEL or ESC \\ on the
  same line. */
  function OscEnd(t: Text, i: nat): (r: Option<nat>)
    ensures r.Some? ==> i < r.value <= |t|
    decreases |t| - i
  {
    if i >= |t| then None
    else if t[i] == BEL then Some(i + 1)
    else if t[i] == ESC && i + 1 < |t| && t[i + 1] == BACKSLASH then Some(i + 2)
    else if t[i] == NL then None
    else OscEnd(t, i + 1)
  }

  /** The end of a control sequence whose parameters start at i. */
  function CsiTail(t: Text, i: nat): (r: Option<nat>)
    requires i <= |t|
    ensures r.Some? ==> i < r.value <= |t|
  {
    FinalAt(t, FINAL, Skip(INTERMEDIATE, t, Skip(PARAMETER, t, i)))
  }

  /** The end of a short sequence whose ESC is just before i. */
  function ShortTail(t: Text, i: nat): (r: Option<nat>)
    requires i <= |t|
    ensures r.Some? ==> i < r.value <= |t|
  {
    FinalAt(t, SHORT_FINAL, Skip(INTERMEDIATE, t, i))
  }

  function LongTail(t: Text, i: nat): (r: Option<nat>)
    requires i <= |t|
    ensures r.Some? ==> i < r.value <= |t|
  {
    if i < |t| && (t[i] == 0x5B || t[i] == 0x28) then CsiTail(t, i + 1)
    else if i < |t| && t[i] == 0x5D then OscEnd(t, i + 1)
    else None
  }

  /** The end of the sequence whose ESC is just before i: two runs and a final byte after
  [ or (, a terminator after ], and in every other case a short sequence. */
  function EscEnd(t: Text, i: nat): (r: Option<nat>)
    requires i <= |t|
    ensures r.Some? ==> i < r.value <= |t|
  {
    OrElse(LongTail(t, i), ShortTail(t, i))
  }

  /** The end of the sequence that starts at i, if one does. */
  function SequenceAt(t: Text, i: nat): (r: Option<nat>)
    requires i < |t|
    ensures r.Some? ==> i < r.value <= |t|
  {
    if t[i] == ESC then EscEnd(t, i + 1) else None
  }

  /** For every position, where the sequence that starts there ends. */
  type Ends = e: seq<Option<nat>> | forall k :: 0 <= k < |e| && e[k].Some? ==> k < e[k].value <= |e|

  function EndsOf(t: Text): (ends: Ends)
    ensures |ends| == |t|
  {
    seq(|t|, i requires 0 <= i < |t| => SequenceAt(t, i))
  }

  /** From i on, skip each sequence met and keep the other bytes. */
  function Scan(t: Text, ends: Ends, i: nat): Text
    requires |ends| == |t| && i <= |t|
    decreases |t| - i
  {
    if i == |t| then []
    else
      match ends[i]
      case Some(j) => Scan(t, ends, j)
      case None => [t[i]] + Scan(t, ends, i + 1)
  }

  // ---- The scanner computes the expression's meaning --------------------------------

  /** When the continuation fails everywhere inside a greedy run, only the whole run
  counts. */
  lemma {:induction false} ManyTakesAll(c: Class, next: Pattern, t: Text, i: nat)
    requires i <= |t|
    requires forall k :: i <= k < Skip(c, t, i) ==> First(next, t, k).None?
    ensures First(Many(c, next), t, i) == First(next, t, Skip(c, t, i))
    decreases |t| - i
  {
    if i < |t| && In(c, t[i]) {
      ManyTakesAll(c, next, t, i + 1);
    }
  }

  /** A greedy run with nothing after it takes everything it can. */
  lemma {:induction false} ManyAtEnd(c: Class, t: Text, i: nat)
    requires i <= |t|
    ensures First(Many(c, Accept), t, i) == Some(Skip(c, t, i))
    decreases |t| - i
  {
    if i < |t| && In(c, t[i]) {
      ManyAtEnd(c, t, i + 1);
    }
  }

  lemma ShortEnd(t: Text, i: nat)
    requires i <= |t|
    ensures First(TwoByte(), t, i) == ShortTail(t, i)
  {
    ManyTakesAll(INTERMEDIATE, One(SHORT_FINAL, Accept), t, i);
  }

  lemma CsiEnd(t: Text, i: nat)
    requires i < |t| && (t[i] == 0x5B || t[i] == 0x28)
    ensures First(Csi(), t, i) == CsiTail(t, i + 1)
  {
    var tail := One(FINAL, Accept);
    ManyTakesAll(INTERMEDIATE, tail, t, Skip(PARAMETER, t, i + 1));
    ManyTakesAll(PARAMETER, Many(INTERMEDIATE, tail), t, i + 1);
  }

  lemma OscTailEnd(t: Text, i: nat)
    requires i <= |t|
    ensures First(OscTail(), t, i) ==
            if i + 1 < |t| && t[i] == ESC && t[i + 1] == BACKSLASH then Some(i + 2)
            else if i < |t| && t[i] == BEL then Some(i + 1) else None
  {
    var st := One(OneOf([BACKSLASH]), Accept);
    if i < |t| && t[i] == ESC {
      assert First(st, t, i + 1) == if i + 1 < |t| && t[i + 1] == BACKSLASH then Some(i + 2) else None;
    }
    assert First(One(OneOf([ESC]), st), t, i) ==
           if i + 1 < |t| && t[i] == ESC && t[i + 1] == BACKSLASH then Some(i + 2) else None;
    assert First(One(OneOf([BEL]), Accept), t, i) == if i < |t| && t[i] == BEL then Some(i + 1) else None;
  }

  lemma {:induction false} OscBodyEnd(t: Text, i: nat)
    requires i <= |t|
    ensures First(Few(NotNewline, OscTail()), t, i) == OscEnd(t, i)
    decreases |t| - i
  {
    OscTailEnd(t, i);
    if i < |t| {
      OscBodyEnd(t, i + 1);
    }
  }

  lemma CharsetEnd(t: Text, i: nat)
    requires i <= |t|
    ensures First(Charset(), t, i) ==
            if i + 1 < |t| && t[i] in [0x28, 0x29] && t[i + 1] in [0x42, 0x62, 0x30, 0x55, 0x4B] then Some(i + 2)
            else None
  {
    var letters := One(OneOf([0x42, 0x62, 0x30, 0x55, 0x4B]), Accept);
    if i < |t| {
      assert First(letters, t, i + 1) ==
             if i + 1 < |t| && t[i + 1] in [0x42, 0x62, 0x30, 0x55, 0x4B] then Some(i + 2) else None;
    }
  }

  /** The short form matches whenever a long one does, and wherever the character-set
  form matches it ends at the same place. */
  lemma ShortCovers(t: Text, i: nat)
    requires i <= |t|
    ensures First(Csi(), t, i).Some? || First(Osc(), t, i).Some? ==> First(TwoByte(), t, i).Some?
    ensures First(Charset(), t, i).Some? ==> First(TwoByte(), t, i) == First(Charset(), t, i)
  {
    ShortEnd(t, i);
    CharsetEnd(t, i);
    if First(Charset(), t, i).Some? {
      assert Skip(INTERMEDIATE, t, i + 1) == i + 1;
      assert Skip(INTERMEDIATE, t, i) == i + 1;
    } else if i < |t| && (t[i] == 0x5B || t[i] == 0x28) {
      CsiEnd(t, i);
      if t[i] == 0x28 && Skip(PARAMETER, t, i + 1) == i + 1 {
        assert Skip(INTERMEDIATE, t, i) == Skip(INTERMEDIATE, t, i + 1);
      }
    }
  }

  lemma Alternatives(t: Text, i: nat)
    requires i < |t| && t[i] == ESC
    ensures First(Ansi(), t, i) ==
            OrElse(First(Csi(), t, i + 1),
                   OrElse(First(Osc(), t, i + 1), OrElse(First(Charset(), t, i + 1), First(TwoByte(), t, i + 1))))
  {
    var last := Alt(Charset(), TwoByte());
    assert First(last, t, i + 1) == OrElse(First(Charset(), t, i + 1), First(TwoByte(), t, i + 1));
    assert First(Alt(Osc(), last), t, i + 1) == OrElse(First(Osc(), t, i + 1), First(last, t, i + 1));
    assert First(Ansi(), t, i) == First(Ansi().next, t, i + 1);
  }

  lemma EscEndIsFirst(t: Text, i: nat)
    requires i < |t| && t[i] == ESC
    ensures First(Ansi(), t, i) == EscEnd(t, i + 1)
  {
    Alternatives(t, i);
    ShortEnd(t, i + 1);
    ShortCovers(t, i + 1);
    if i + 1 < |t| && (t[i + 1] == 0x5B || t[i + 1] == 0x28) {
      CsiEnd(t, i + 1);
    } else if i + 1 < |t| && t[i + 1] == 0x5D {
      OscBodyEnd(t, i + 2);
    }
  }

  /** The scanner and the leftmost-first expression agree on every input. */
  lemma {:induction false} ScanIsRemoveAll(t: Text, i: nat)
    requires i <= |t|
    ensures Scan(t, EndsOf(t), i) == RemoveAll(Ansi(), t, i)
    decreases |t| - i
  {
    if i < |t| {
      SequenceIsFirst(t, i);
      match SequenceAt(t, i)
      case Some(j) => ScanIsRemoveAll(t, j);
      case None => ScanIsRemoveAll(t, i + 1);
    }
  }

  lemma SequenceIsFirst(t: Text, i: nat)
    requires i < |t|
    ensures First(Ansi(), t, i) == SequenceAt(t, i)
  {
    if t[i] == ESC {
      EscEndIsFirst(t, i);
    }
  }

  lemma ScanIsStrip(t: Text)
    ensures Scan(t, EndsOf(t), 0) == Strip(t)
  {
    ScanIsRemoveAll(t, 0);
  }

  /** An ESC is removed exactly when the last, shortest alternative matches there. */
  lemma MatchedIffShortMatches(t: Text, i: nat)
    requires i < |t| && t[i] == ESC
    ensures First(Ansi(), t, i).Some? <==> First(TwoByte(), t, i + 1).Some?
  {
    Alternatives(t, i);
    ShortCovers(t, i + 1);
  }

  /** The character-set alternative is redundant: without it every input is stripped to
  the same text. */
  lemma {:induction false} CharsetIsRedundant(t: Text, i: nat)
    requires i <= |t|
    ensures RemoveAll(One(OneOf([ESC]), Alt(Csi(), Alt(Osc(), TwoByte()))), t, i) == RemoveAll(Ansi(), t, i)
    decreases |t| - i
  {
    if i < |t| {
      var shorter := One(OneOf([ESC]), Alt(Csi(), Alt(Osc(), TwoByte())));
      if t[i] == ESC {
        Alternatives(t, i);
        ShortCovers(t, i + 1);
        assert First(Alt(Osc(), TwoByte()), t, i + 1) == OrElse(First(Osc(), t, i + 1), First(TwoByte(), t, i + 1));
        assert First(shorter, t, i) == First(shorter.next, t, i + 1);
        assert First(shorter, t, i) == First(Ansi(), t, i);
      }
      if First(Ansi(), t, i).Some? && First(Ansi(), t, i).value > i {
        CharsetIsRedundant(t, First(Ansi(), t, i).value);
      } else {
        CharsetIsRedundant(t, i + 1);
      }
    }
  }
}
