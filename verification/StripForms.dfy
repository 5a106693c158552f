/** What Strip does to the front of any text, byte range by byte range. The cases are
exhaustive: a plain byte, a complete control sequence, a complete operating-system command,
another complete sequence, an incomplete one of each kind, and an ESC that starts nothing. */
module StripForms {
  import opened Bytes
  import opened S = Strip
  import opened StripLaws

  ghost predicate Between(t: Text, i: nat, j: nat, lo: int, hi: int)
  {
    i <= j <= |t| && forall k :: i <= k < j ==> lo <= t[k] <= hi
  }

  /** The byte at i, if there is one, lies outside lo..hi. */
  predicate Outside(t: Text, i: nat, lo: int, hi: int) {
    i < |t| ==> t[i] < lo || hi < t[i]
  }

  // ---- One step of the scan ------------------------------------------------------------

  lemma StripFrom(t: Text, n: nat)
    requires n <= |t|
    ensures Scan(t, EndsOf(t), n) == Strip(t[n..])
  {
    ScanIsStrip(t[n..]);
    EndsShift(t, n, t[n..]);
    ScanShift(t, EndsOf(t), n, t[n..], EndsOf(t[n..]), 0);
  }

  lemma FrontRemoved(t: Text, n: nat)
    requires t != [] && SequenceAt(t, 0) == Some(n)
    ensures Strip(t) == Strip(t[n..])
  {
    ScanIsStrip(t);
    StripFrom(t, n);
  }

  lemma FrontKept(t: Text)
    requires t != [] && SequenceAt(t, 0).None?
    ensures Strip(t) == [t[0]] + Strip(t[1..])
  {
    ScanIsStrip(t);
    StripFrom(t, 1);
  }

  lemma {:induction false} SkipTo(c: Class, t: Text, i: nat, j: nat)
    requires i <= j <= |t| && (forall k :: i <= k < j ==> In(c, t[k])) && (j < |t| ==> !In(c, t[j]))
    ensures Skip(c, t, i) == j
    decreases j - i
  {
    if i < j {
      SkipTo(c, t, i + 1, j);
    }
  }

  // ---- Plain bytes and control sequences ---------------------------------------------------

  lemma PlainKept(t: Text)
    requires t != [] && t[0] != 0x1B
    ensures Strip(t) == [t[0]] + Strip(t[1..])
  {
    FrontKept(t);
  }

  /** ESC, then [ or (, parameter bytes up to a, intermediate bytes up to b. */
  ghost predicate CsiOpen(t: Text, a: nat, b: nat)
  {
    && |t| >= 2 && t[0] == 0x1B && (t[1] == 0x5B || t[1] == 0x28)
    && 2 <= a && Between(t, 2, a, 0x30, 0x3F) && Between(t, a, b, 0x20, 0x2F)
    && Outside(t, a, 0x30, 0x3F) && Outside(t, b, 0x20, 0x2F)
  }

  lemma CsiRuns(t: Text, a: nat, b: nat)
    requires CsiOpen(t, a, b)
    ensures LongTail(t, 1) == if b < |t| && 0x40 <= t[b] <= 0x7E then Some(b + 1) else None
  {
    SkipTo(PARAMETER, t, 2, a);
    SkipTo(INTERMEDIATE, t, a, b);
  }

  lemma CsiRemoved(t: Text, a: nat, b: nat)
    requires CsiOpen(t, a, b) && b < |t| && 0x40 <= t[b] <= 0x7E
    ensures Strip(t) == Strip(t[b + 1..])
  {
    CsiRuns(t, a, b);
    FrontRemoved(t, b + 1);
  }

  /** Without a final byte, only ESC [ goes, or ESC ( and a first parameter, or ESC ( with
  intermediate bytes and a byte that ends a short sequence. */
  lemma CsiUnfinished(t: Text, a: nat, b: nat)
    requires CsiOpen(t, a, b) && Outside(t, b, 0x40, 0x7E)
    ensures t[1] == 0x5B ==> Strip(t) == Strip(t[2..])
    ensures t[1] == 0x28 && 2 < a ==> Strip(t) == Strip(t[3..])
    ensures t[1] == 0x28 && a == 2 && b < |t| && 0x30 <= t[b] <= 0x3F ==> Strip(t) == Strip(t[b + 1..])
  {
    CsiRuns(t, a, b);
    if t[1] == 0x5B {
      SkipTo(INTERMEDIATE, t, 1, 1);
      FrontRemoved(t, 2);
    } else if 2 < a {
      SkipTo(INTERMEDIATE, t, 1, 2);
      FrontRemoved(t, 3);
    } else if b < |t| && 0x30 <= t[b] <= 0x3F {
      SkipTo(INTERMEDIATE, t, 1, b);
      FrontRemoved(t, b + 1);
    }
  }

  // ---- Operating-system commands -------------------------------------------------------------

  /** ESC ] and text up to e without BEL, newline or ESC \. */
  ghost predicate OscOpen(t: Text, e: nat)
  {
    && |t| >= 2 && t[0] == 0x1B && t[1] == 0x5D && 2 <= e <= |t|
    && forall k :: 2 <= k < e ==> t[k] != 0x07 && t[k] != 0x0A && !(t[k] == 0x1B && k + 1 < |t| && t[k + 1] == 0x5C)
  }

  lemma {:induction false} OscRuns(t: Text, e: nat, i: nat)
    requires OscOpen(t, e) && 2 <= i <= e
    ensures OscEnd(t, i) == OscEnd(t, e)
    decreases e - i
  {
    if i < e {
      OscRuns(t, e, i + 1);
    }
  }

  lemma OscRemoved(t: Text, e: nat)
    requires OscOpen(t, e) && e < |t|
    ensures t[e] == 0x07 ==> Strip(t) == Strip(t[e + 1..])
    ensures t[e] == 0x1B && e + 1 < |t| && t[e + 1] == 0x5C ==> Strip(t) == Strip(t[e + 2..])
  {
    OscRuns(t, e, 2);
    if t[e] == 0x07 {
      FrontRemoved(t, e + 1);
    } else if t[e] == 0x1B && e + 1 < |t| && t[e + 1] == 0x5C {
      FrontRemoved(t, e + 2);
    }
  }

  /** Without a terminator on its line, only ESC ] goes. */
  lemma OscUnfinished(t: Text, e: nat)
    requires OscOpen(t, e) && (e < |t| ==> t[e] == 0x0A)
    ensures Strip(t) == Strip(t[2..])
  {
    OscRuns(t, e, 2);
    SkipTo(INTERMEDIATE, t, 1, 1);
    FrontRemoved(t, 2);
  }

  // ---- Short sequences and a lone ESC ----------------------------------------------------------

  lemma ShortRemoved(t: Text, b: nat)
    requires |t| >= 2 && t[0] == 0x1B && t[1] != 0x5B && t[1] != 0x28 && t[1] != 0x5D
    requires 1 <= b < |t| && Between(t, 1, b, 0x20, 0x2F) && 0x30 <= t[b] <= 0x7E
    ensures Strip(t) == Strip(t[b + 1..])
  {
    SkipTo(INTERMEDIATE, t, 1, b);
    FrontRemoved(t, b + 1);
  }

  lemma EscKept(t: Text, b: nat)
    requires t != [] && t[0] == 0x1B && 1 <= b && Between(t, 1, b, 0x20, 0x2F) && Outside(t, b, 0x20, 0x7E)
    ensures Strip(t) == [0x1B] + Strip(t[1..])
  {
    SkipTo(INTERMEDIATE, t, 1, b);
    if 1 < b && t[1] == 0x28 {
      SkipTo(PARAMETER, t, 2, 2);
      SkipTo(INTERMEDIATE, t, 2, b);
    }
    FrontKept(t);
  }
}
