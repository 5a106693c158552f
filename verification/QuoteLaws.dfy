/** What the quoting is for: no shell operator is left outside quotes, nothing is quoted
without need, and a quoted word is a Go string literal for that word. */
module QuoteLaws {
  import opened Bytes
  import opened Q = ShellQuote

  // ---- Operators are quoted, and only words with special bytes ---------------------------

  /** The bytes that the source looks for. */
  const SPECIALS := " \t\n\"'\\$|&;<>(){}[]*?#~`"

  predicate Operator(c: Byte) {
    (c as char) in SPECIALS && c != SPACE
  }

  lemma SpecialsAre(c: Byte)
    ensures Special(c) <==> (c as char) in SPECIALS
  {
    if Special(c) {
      var k := if c == 0x20 then 0 else if c == 0x09 then 1 else if c == 0x0A then 2 else if c == 0x22 then 3
        else if c == 0x27 then 4 else if c == 0x5C then 5 else if c == 0x24 then 6 else if c == 0x7C then 7
        else if c == 0x26 then 8 else if c == 0x3B then 9 else if c == 0x3C then 10 else if c == 0x3E then 11
        else if c == 0x28 then 12 else if c == 0x29 then 13 else if c == 0x7B then 14 else if c == 0x7D then 15
        else if c == 0x5B then 16 else if c == 0x5D then 17 else if c == 0x2A then 18 else if c == 0x3F then 19
        else if c == 0x23 then 20 else if c == 0x7E then 21 else 22;
      assert SPECIALS[k] == c as char;
    }
  }

  /** A word is printed as it is exactly if it has none of them. */
  lemma QuotedExactly(w: Text, isPrint: int -> bool)
    ensures QuoteIfNeeded(w, isPrint) == w <==> forall c :: c in w ==> (c as char) !in SPECIALS
  {
    forall c | c in w
      ensures Special(c) <==> (c as char) in SPECIALS
    {
      SpecialsAre(c);
    }
    if NeedsQuote(w) {
      EscapedIsLong(w, isPrint);
    }
  }

  lemma {:induction false} EscapedIsLong(w: Text, isPrint: int -> bool)
    ensures |Escaped(w, isPrint)| >= |w|
    decreases |w|
  {
    if w != [] {
      EscapedIsLong(w[Width(w)..], isPrint);
    }
  }

  /** Read with double quotes as the only quotes, a backslash escaping inside them, t has no
  operator outside quotes. */
  predicate Guarded(t: Text, quoted: bool)
    decreases |t|
  {
    if t == [] then !quoted
    else if !quoted then
      if t[0] == DQUOTE then Guarded(t[1..], true) else !Operator(t[0]) && Guarded(t[1..], false)
    else if t[0] == DQUOTE then Guarded(t[1..], false)
    else if t[0] == BACKSLASH then |t| > 1 && Guarded(t[2..], true)
    else Guarded(t[1..], true)
  }

  /** Inside quotes, text in which backslashes come only first, each before another byte. */
  lemma {:induction false} GuardedPlain(e: Text, rest: Text)
    requires DQUOTE !in e && BACKSLASH !in e
    ensures Guarded(e + rest, true) == Guarded(rest, true)
  {
    if e == [] {
      assert e + rest == rest;
    } else {
      assert (e + rest)[1..] == e[1..] + rest;
      assert e[0] in e && forall c :: c in e[1..] ==> c in e;
      GuardedPlain(e[1..], rest);
    }
  }

  /** A backslash and any byte, then text without either. */
  lemma GuardedEscape(c: Byte, digits: Text, rest: Text)
    requires DQUOTE !in digits && BACKSLASH !in digits
    ensures Guarded([BACKSLASH, c] + digits + rest, true) == Guarded(rest, true)
  {
    var t := [BACKSLASH, c] + digits + rest;
    assert t[0] == BACKSLASH && t[2..] == digits + rest;
    GuardedPlain(digits, rest);
  }

  lemma GuardedCharacter(u: Text, rest: Text, isPrint: int -> bool)
    requires u != [] && (|u| > 1 ==> forall k :: 0 <= k < |u| ==> u[k] >= 0x80)
    ensures Guarded(Escape(u, isPrint) + rest, true) == Guarded(rest, true)
  {
    var e := Escape(u, isPrint);
    if e[0] == BACKSLASH {
      assert e == [BACKSLASH, e[1]] + e[2..];
      assert DQUOTE !in e[2..] && BACKSLASH !in e[2..];
      GuardedEscape(e[1], e[2..], rest);
    } else {
      GuardedPlain(e, rest);
    }
  }

  lemma {:induction false} GuardedEscaped(w: Text, rest: Text, isPrint: int -> bool)
    ensures Guarded(Escaped(w, isPrint) + rest, true) == Guarded(rest, true)
    decreases |w|
  {
    if w == [] {
      assert Escaped(w, isPrint) + rest == rest;
    } else {
      var u, more := w[..Width(w)], w[Width(w)..];
      assert Escaped(w, isPrint) + rest == Escape(u, isPrint) + (Escaped(more, isPrint) + rest);
      GuardedCharacter(u, Escaped(more, isPrint) + rest, isPrint);
      GuardedEscaped(more, rest, isPrint);
    }
  }

  lemma {:induction false} GuardedBare(w: Text, rest: Text)
    requires forall c :: c in w ==> !Operator(c)
    ensures Guarded(w + rest, false) == Guarded(rest, false)
  {
    if w == [] {
      assert w + rest == rest;
    } else {
      assert (w + rest)[1..] == w[1..] + rest;
      assert w[0] in w && forall c :: c in w[1..] ==> c in w;
      assert Operator(DQUOTE) by {
        assert SPECIALS[3] == DQUOTE as char;
      }
      GuardedBare(w[1..], rest);
    }
  }

  lemma GuardedQuoted(w: Text, rest: Text, isPrint: int -> bool)
    ensures Guarded([DQUOTE] + Escaped(w, isPrint) + [DQUOTE] + rest, false) == Guarded(rest, false)
  {
    var close := [DQUOTE] + rest;
    var inner := Escaped(w, isPrint) + close;
    assert [DQUOTE] + Escaped(w, isPrint) + [DQUOTE] + rest == [DQUOTE] + inner;
    assert ([DQUOTE] + inner)[1..] == inner && close[1..] == rest;
    GuardedEscaped(w, close, isPrint);
  }

  lemma GuardedWord(w: Text, rest: Text, isPrint: int -> bool)
    ensures Guarded(QuoteIfNeeded(w, isPrint) + rest, false) == Guarded(rest, false)
  {
    if NeedsQuote(w) {
      GuardedQuoted(w, rest, isPrint);
    } else {
      forall c | c in w
        ensures !Operator(c)
      {
        SpecialsAre(c);
      }
      GuardedBare(w, rest);
    }
  }

  /** In every printed command line every operator is inside quotes and every quote closed. */
  lemma {:induction false} OperatorsAreQuoted(words: seq<Text>, isPrint: int -> bool)
    ensures Guarded(CommandLine(words, isPrint), false)
  {
    if words != [] {
      var tail := words[1..];
      var rest := if |words| == 1 then [] else [SPACE] + CommandLine(tail, isPrint);
      CommandLineStep(words, isPrint);
      GuardedWord(words[0], rest, isPrint);
      if |words| > 1 {
        OperatorsAreQuoted(tail, isPrint);
        assert rest[1..] == CommandLine(tail, isPrint);
      }
    }
  }

  // ---- A quoted word is a string literal for the word --------------------------------------

  function Digit(c: Byte): Option<nat> {
    if 0x30 <= c <= 0x39 then Some(c - 0x30) else if 0x61 <= c <= 0x66 then Some(c - 0x61 + 10) else None
  }

  /** The number that hexadecimal digits stand for. */
  function Value(digits: Text): Option<nat> {
    if digits == [] then Some(0)
    else
      var n := |digits| - 1;
      match (Value(digits[..n]), Digit(digits[n]))
      case (Some(v), Some(d)) => Some(16 * v + d)
      case _ => None
  }

  /** The UTF-8 form of a code point. */
  function Utf8(n: nat): Text
    requires n < 0x200000
  {
    var x, y, z := n / 0x40, n / 0x40 / 0x40, n / 0x40 / 0x40 / 0x40;
    if n < 0x80 then [n]
    else if n < 0x800 then [0xC0 + x, 0x80 + n % 0x40]
    else if n < 0x10000 then [0xE0 + y, 0x80 + x % 0x40, 0x80 + n % 0x40]
    else [0xF0 + z, 0x80 + y % 0x40, 0x80 + x % 0x40, 0x80 + n % 0x40]
  }

  /** The byte that a backslash and c stand for. */
  function Named(c: Byte): Option<Byte> {
    if c == DQUOTE || c == BACKSLASH then Some(c)
    else if c == 'a' as int then Some(0x07)
    else if c == 'b' as int then Some(0x08)
    else if c == 'f' as int then Some(0x0C)
    else if c == 'n' as int then Some(0x0A)
    else if c == 'r' as int then Some(0x0D)
    else if c == 't' as int then Some(0x09)
    else if c == 'v' as int then Some(0x0B)
    else None
  }

  /** How many hexadecimal digits follow a backslash and c. */
  function DigitsAfter(c: Byte): nat {
    if c == 'x' as int then 2 else if c == 'u' as int then 4 else if c == 'U' as int then 8 else 0
  }

  /** The text between the quotes of an interpreted Go string literal, decoded. */
  function Decode(t: Text): Option<Text>
    decreases |t|
  {
    if t == [] then Some([])
    else if t[0] == DQUOTE || t[0] == NL then None
    else if t[0] != BACKSLASH then Before([t[0]], Decode(t[1..]))
    else if |t| == 1 then None
    else if Named(t[1]).Some? then Before([Named(t[1]).value], Decode(t[2..]))
    else
      var k := DigitsAfter(t[1]);
      if k == 0 || |t| < 2 + k then None
      else
        match Value(t[2..2 + k])
        case None => None
        case Some(v) =>
          if k == 2 then (if v < 256 then Before([v], Decode(t[4..])) else None)
          else if v < 0x200000 then Before(Utf8(v), Decode(t[2 + k..]))
          else None
  }

  function Before(a: Text, rest: Option<Text>): Option<Text> {
    if rest.Some? then Some(a + rest.value) else None
  }

  function Power(k: nat): nat {
    if k == 0 then 1 else 16 * Power(k - 1)
  }

  lemma {:induction false} HexValue(n: nat, k: nat)
    requires n < Power(k)
    ensures Value(Hex(n, k)) == Some(n)
    decreases k
  {
    if k > 0 {
      HexValue(n / 16, k - 1);
      assert Hex(n, k)[..k - 1] == Hex(n / 16, k - 1);
      assert Digit(HexDigit(n % 16)) == Some(n % 16);
    }
  }

  /** A character of several bytes, as Width recognises it. */
  predicate WellFormed(u: Text) {
    |u| > 1 && Width(u) == |u|
  }

  /** Code points that UTF-8 may encode: the surrogates are not among them. */
  predicate Scalar(n: int) {
    0 <= n < 0xD800 || 0xE000 <= n < 0x110000
  }

  /** Width finds exactly the well-formed characters: each is the UTF-8 form of its code point,
  and the UTF-8 form of every code point beyond ASCII is found. */
  lemma Utf8OfCodePoint(u: Text)
    requires WellFormed(u)
    ensures Scalar(CodePoint(u)) && CodePoint(u) >= 0x80 && (CodePoint(u) >= 0x10000 <==> |u| == 4)
    ensures Utf8(CodePoint(u)) == u
  {
    if |u| == 2 {
      TwoBytes(u);
    } else if |u| == 3 {
      ThreeBytes(u);
    } else {
      FourBytes(u);
    }
  }

  lemma TwoBytes(u: Text)
    requires WellFormed(u) && |u| == 2
    ensures 0x80 <= CodePoint(u) < 0x800 && Utf8(CodePoint(u)) == u
  {
    var a, b := u[0] as int - 0xC0, u[1] as int - 0x80;
    LastDigit(a, b);
    assert CodePoint(u) == 0x40 * a + b;
  }

  lemma ThreeBytes(u: Text)
    requires WellFormed(u) && |u| == 3
    ensures 0x800 <= CodePoint(u) < 0x10000 && Scalar(CodePoint(u)) && Utf8(CodePoint(u)) == u
  {
    var a, b, c := u[0] as int - 0xE0, u[1] as int - 0x80, u[2] as int - 0x80;
    LastDigit(a, b);
    LastDigit(0x40 * a + b, c);
    assert CodePoint(u) == 0x40 * (0x40 * a + b) + c;
  }

  lemma FourBytes(u: Text)
    requires WellFormed(u) && |u| == 4
    ensures 0x10000 <= CodePoint(u) < 0x110000 && Utf8(CodePoint(u)) == u
  {
    var a, b, c, d := u[0] as int - 0xF0, u[1] as int - 0x80, u[2] as int - 0x80, u[3] as int - 0x80;
    LastDigit(a, b);
    LastDigit(0x40 * a + b, c);
    LastDigit(0x40 * (0x40 * a + b) + c, d);
    assert CodePoint(u) == 0x40 * (0x40 * (0x40 * a + b) + c) + d;
  }

  lemma Utf8IsFound(n: nat, rest: Text)
    requires Scalar(n) && n >= 0x80
    ensures Width(Utf8(n) + rest) == |Utf8(n)| && WellFormed(Utf8(n))
  {
    var x, y, z := n / 0x40, n / 0x40 / 0x40, n / 0x40 / 0x40 / 0x40;
    var u := Utf8(n);
    var t := u + rest;
    assert forall k :: 0 <= k < |u| ==> t[k] == u[k];
    if 0x800 <= n < 0x10000 {
      assert y == 0 ==> x % 0x40 >= 0x20;
      assert y == 0x0D ==> x % 0x40 < 0x20;
    } else if n >= 0x10000 {
      assert z == 0 ==> y % 0x40 >= 0x10;
      assert z == 4 ==> y % 0x40 < 0x10;
    }
  }

  lemma LastDigit(x: int, y: int)
    requires x >= 0 && 0 <= y < 0x40
    ensures (0x40 * x + y) / 0x40 == x && (0x40 * x + y) % 0x40 == y
  {
  }

  lemma DecodeByte(c: Byte, rest: Text)
    ensures Decode(EscapeByte(c) + rest) == Before([c], Decode(rest))
  {
    var e := EscapeByte(c);
    if e[0] != BACKSLASH {
      assert e == [c] && (e + rest)[1..] == rest;
    } else {
      NamedOrHex(c);
      if |e| == 2 {
        DecodeNamed(e[1], rest);
        assert e == [BACKSLASH, e[1]];
      } else {
        DecodeHex(c, rest);
      }
    }
  }

  lemma NamedOrHex(c: Byte)
    requires EscapeByte(c)[0] == BACKSLASH
    ensures var e := EscapeByte(c);
            (|e| == 2 && Named(e[1]) == Some(c)) || e == [BACKSLASH, 0x78] + Hex(c, 2)
  {
  }

  lemma DecodeNamed(letter: Byte, rest: Text)
    requires Named(letter).Some?
    ensures Decode([BACKSLASH, letter] + rest) == Before([Named(letter).value], Decode(rest))
  {
    assert ([BACKSLASH, letter] + rest)[2..] == rest;
  }

  lemma DecodeHex(c: Byte, rest: Text)
    ensures Decode([BACKSLASH, 0x78] + Hex(c, 2) + rest) == Before([c], Decode(rest))
  {
    var t := [BACKSLASH, 0x78] + Hex(c, 2) + rest;
    assert t[2..4] == Hex(c, 2) && t[4..] == rest;
    assert Power(2) == 256;
    HexValue(c, 2);
  }

  lemma DecodeCodePoint(n: nat, k: nat, c: Byte, rest: Text)
    requires (k == 4 && c == 'u' as int && n < 0x10000) || (k == 8 && c == 'U' as int && n < 0x110000)
    ensures Decode([BACKSLASH, c] + Hex(n, k) + rest) == Before(Utf8(n), Decode(rest))
  {
    var t := [BACKSLASH, c] + Hex(n, k) + rest;
    assert t[2..2 + k] == Hex(n, k) && t[2 + k..] == rest;
    assert Power(4) == 0x10000 && Power(8) == Power(4) * Power(4);
    HexValue(n, k);
  }

  lemma {:induction false} DecodePlain(u: Text, rest: Text)
    requires forall c :: c in u ==> c >= 0x80
    ensures Decode(u + rest) == Before(u, Decode(rest))
  {
    if u == [] {
      assert u + rest == rest;
      assert Decode(rest).Some? ==> u + Decode(rest).value == Decode(rest).value;
    } else {
      assert u[0] in u && forall c :: c in u[1..] ==> c in u;
      assert (u + rest)[1..] == u[1..] + rest;
      DecodePlain(u[1..], rest);
      assert Decode(rest).Some? ==> [u[0]] + (u[1..] + Decode(rest).value) == u + Decode(rest).value;
    }
  }

  lemma DecodeCharacter(u: Text, rest: Text, isPrint: int -> bool)
    requires |u| == 1 || WellFormed(u)
    ensures Decode(Escape(u, isPrint) + rest) == Before(u, Decode(rest))
  {
    if |u| == 1 {
      DecodeByte(u[0], rest);
      assert [u[0]] == u;
    } else if isPrint(CodePoint(u)) {
      DecodePlain(u, rest);
    } else {
      Utf8OfCodePoint(u);
      var n := CodePoint(u);
      if n < 0x10000 {
        DecodeCodePoint(n, 4, 0x75, rest);
      } else {
        DecodeCodePoint(n, 8, 0x55, rest);
      }
    }
  }

  lemma FirstCharacter(w: Text)
    requires w != []
    ensures Width(w) == 1 || WellFormed(w[..Width(w)])
  {
  }

  /** Between its quotes, a quoted word decodes to the word, for words of any bytes and
  whatever counts as printable. */
  lemma {:induction false} QuotedIsLiteral(w: Text, isPrint: int -> bool)
    ensures Decode(Escaped(w, isPrint)) == Some(w)
    decreases |w|
  {
    if w != [] {
      var u, more := w[..Width(w)], w[Width(w)..];
      FirstCharacter(w);
      QuotedIsLiteral(more, isPrint);
      DecodeCharacter(u, Escaped(more, isPrint), isPrint);
      assert u + more == w;
    }
  }
}
