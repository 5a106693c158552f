/** Printing a command line and parsing it back.

ShellQuote is the printer that the SSH client uses, for words of any bytes. Which
characters beyond ASCII count as printable is a parameter. The tokeniser on the other side
is outside the repository; the one here splits on blanks and follows the quoting rules of
section 2.2 of the POSIX Shell Command Language, with a backslash inside double quotes
escaping only a double quote or a backslash. Its blanks are a parameter too: the space and
any control bytes. */
module ShellQuote {
  import opened Bytes

  /** The tokeniser's blanks. */
  type Blanks = s: set<Byte> | SPACE in s && forall b :: b in s ==> b == SPACE || b < 0x20 witness {SPACE}

  // ---- Characters ---------------------------------------------------------------

  predicate Continuation(b: Byte) {
    0x80 <= b <= 0xBF
  }

  /** The second byte of a well-formed sequence that starts with a. */
  predicate Second(a: Byte, b: Byte) {
    (if a == 0xE0 then 0xA0 else if a == 0xF0 then 0x90 else 0x80) <= b
    && b <= if a == 0xED then 0x9F else if a == 0xF4 then 0x8F else 0xBF
  }

  /** The length of the UTF-8 character at the front of t; 1 for a byte that starts none. */
  function Width(t: Text): (n: nat)
    requires t != []
    ensures 1 <= n <= |t| && (t[0] < 0x80 ==> n == 1) && (n > 1 ==> forall k :: 0 <= k < n ==> t[k] >= 0x80)
  {
    var a := t[0];
    if 0xC2 <= a <= 0xDF && |t| >= 2 && Continuation(t[1]) then 2
    else if 0xE0 <= a <= 0xEF && |t| >= 3 && Second(a, t[1]) && Continuation(t[2]) then 3
    else if 0xF0 <= a <= 0xF4 && |t| >= 4 && Second(a, t[1]) && Continuation(t[2]) && Continuation(t[3]) then 4
    else 1
  }

  /** The number in the low bits of b, below m. */
  function Low(b: int, m: int): int
    requires m > 0
  {
    b % m
  }

  /** The code point of a character of several bytes. */
  function CodePoint(u: Text): int {
    if |u| == 2 then Low(u[0], 0x20) * 0x40 + Low(u[1], 0x40)
    else if |u| == 3 then Low(u[0], 0x10) * 0x1000 + Low(u[1], 0x40) * 0x40 + Low(u[2], 0x40)
    else if |u| == 4 then
      Low(u[0], 0x08) * 0x40000 + Low(u[1], 0x40) * 0x1000 + Low(u[2], 0x40) * 0x40 + Low(u[3], 0x40)
    else 0
  }

  predicate Printable(c: Byte) {
    0x20 <= c <= 0x7E
  }

  /** The character u can stand in a quoted word as it is (or behind a backslash). */
  predicate Shown(u: Text, isPrint: int -> bool) {
    if |u| == 1 then Printable(u[0]) else isPrint(CodePoint(u))
  }

  // ---- The printer ------------------------------------------------------------

  /** The bytes that make a word quoted: blanks, quotes and the shell's operators. */
  predicate Special(c: Byte) {
    || c == SPACE || c == TAB || c == NL || c == DQUOTE || c == SQUOTE || c == BACKSLASH
    || c == 0x24 || c == 0x7C || c == 0x26 || c == 0x3B || c == 0x3C || c == 0x3E || c == 0x28 || c == 0x29
    || c == 0x7B || c == 0x7D || c == 0x5B || c == 0x5D || c == 0x2A || c == 0x3F || c == 0x23 || c == 0x7E || c == 0x60
  }

  predicate NeedsQuote(w: Text) {
    exists c :: c in w && Special(c)
  }

  function HexDigit(n: nat): (c: Byte)
    requires n < 16
    ensures 0x30 <= c <= 0x66 && c != BACKSLASH
  {
    if n < 10 then 0x30 + n else 0x61 + (n - 10)
  }

  /** The last k hexadecimal digits of n. */
  function Hex(n: int, k: nat): (digits: Text)
    ensures |digits| == k && forall c :: c in digits ==> 0x30 <= c <= 0x66 && c != BACKSLASH
    decreases k
  {
    if k == 0 then [] else Hex(n / 16, k - 1) + [HexDigit(n % 16)]
  }

  /** One byte that is not part of a longer character, inside a Go string literal. */
  function EscapeByte(c: Byte): (e: Text)
    ensures e != []
  {
    if c == DQUOTE || c == BACKSLASH then [BACKSLASH, c]
    else if Printable(c) then [c]
    else if c == 0x07 then [BACKSLASH, 0x61]
    else if c == 0x08 then [BACKSLASH, 0x62]
    else if c == 0x0C then [BACKSLASH, 0x66]
    else if c == NL then [BACKSLASH, 0x6E]
    else if c == CR then [BACKSLASH, 0x72]
    else if c == TAB then [BACKSLASH, 0x74]
    else if c == 0x0B then [BACKSLASH, 0x76]
    else [BACKSLASH, 0x78] + Hex(c, 2)
  }

  /** One character inside a Go string literal. */
  function Escape(u: Text, isPrint: int -> bool): (e: Text)
    requires u != []
    ensures e != []
  {
    if |u| == 1 then EscapeByte(u[0])
    else if isPrint(CodePoint(u)) then u
    else if CodePoint(u) < 0x10000 then [BACKSLASH, 0x75] + Hex(CodePoint(u), 4)
    else [BACKSLASH, 0x55] + Hex(CodePoint(u), 8)
  }

  function Escaped(w: Text, isPrint: int -> bool): Text
    decreases |w|
  {
    if w == [] then [] else Escape(w[..Width(w)], isPrint) + Escaped(w[Width(w)..], isPrint)
  }

  function QuoteIfNeeded(w: Text, isPrint: int -> bool): Text {
    if NeedsQuote(w) then [DQUOTE] + Escaped(w, isPrint) + [DQUOTE] else w
  }

  function JoinWords(parts: seq<Text>): Text {
    if parts == [] then []
    else if |parts| == 1 then parts[0]
    else parts[0] + [SPACE] + JoinWords(parts[1..])
  }

  function QuoteAll(words: seq<Text>, isPrint: int -> bool): seq<Text> {
    if words == [] then [] else [QuoteIfNeeded(words[0], isPrint)] + QuoteAll(words[1..], isPrint)
  }

  function CommandLine(words: seq<Text>, isPrint: int -> bool): Text {
    JoinWords(QuoteAll(words, isPrint))
  }

  method ShellQuote(command: Text, args: seq<Text>, isPrint: int -> bool) returns (line: Text)
    ensures line == CommandLine([command] + args, isPrint)
  {
    var parts := [QuoteIfNeeded(command, isPrint)];
    assert args[0..] == args;
    for i := 0 to |args|
      invariant parts + QuoteAll(args[i..], isPrint) == [QuoteIfNeeded(command, isPrint)] + QuoteAll(args, isPrint)
    {
      assert args[i..][1..] == args[i + 1..];
      parts := parts + [QuoteIfNeeded(args[i], isPrint)];
    }
    assert args[|args|..] == [] && parts + [] == parts;
    assert ([command] + args)[0] == command && ([command] + args)[1..] == args;
    line := JoinWords(parts);
  }

  // ---- The parser --------------------------------------------------------------

  /** Between words, inside an unquoted stretch, or inside quotes. */
  datatype Mode = Gap | Bare | Single | Double

  /** The words of t, given the mode and the part of the current word already read; None
  when a quote or a backslash is left open. */
  function Parse(blanks: Blanks, t: Text, mode: Mode, word: Text): Option<seq<Text>>
    decreases |t|
  {
    if t == [] then
      match mode
      case Gap => Some([])
      case Bare => Some([word])
      case _ => None
    else
      var c := t[0];
      if mode == Single then
        if c == SQUOTE then Parse(blanks, t[1..], Bare, word) else Parse(blanks, t[1..], Single, word + [c])
      else if mode == Double then
        if c == DQUOTE then Parse(blanks, t[1..], Bare, word)
        else if c == BACKSLASH && |t| > 1 && (t[1] == DQUOTE || t[1] == BACKSLASH) then
          Parse(blanks, t[2..], Double, word + [t[1]])
        else Parse(blanks, t[1..], Double, word + [c])
      else if c in blanks then
        var rest := Parse(blanks, t[1..], Gap, []);
        if mode == Gap then rest else After([word], rest)
      else if c == DQUOTE then Parse(blanks, t[1..], Double, word)
      else if c == SQUOTE then Parse(blanks, t[1..], Single, word)
      else if c == BACKSLASH then
        if |t| == 1 then None else Parse(blanks, t[2..], Bare, word + [t[1]])
      else Parse(blanks, t[1..], Bare, word + [c])
  }

  function After(words: seq<Text>, rest: Option<seq<Text>>): Option<seq<Text>> {
    if rest.None? then None else Some(words + rest.value)
  }

  function Tokens(blanks: Blanks, t: Text): Option<seq<Text>> {
    Parse(blanks, t, Gap, [])
  }

  // ---- What arrives ------------------------------------------------------------------

  /** What a quoted character becomes: one that is not printable stays in its escaped form,
  because the parser does not know that escape. */
  function Seen(u: Text, isPrint: int -> bool): (s: Text)
    requires u != []
    ensures s != []
  {
    if Shown(u, isPrint) then u else Escape(u, isPrint)
  }

  /** What a quoted word becomes. */
  function Literal(w: Text, isPrint: int -> bool): Text
    decreases |w|
  {
    if w == [] then [] else Seen(w[..Width(w)], isPrint) + Literal(w[Width(w)..], isPrint)
  }

  /** What an unquoted word becomes: its stretches between blanks, after `word`. */
  function Fields(blanks: Blanks, w: Text, word: Text): seq<Text>
    decreases |w|
  {
    var done := if word == [] then [] else [word];
    if w == [] then done
    else if w[0] in blanks then done + Fields(blanks, w[1..], [])
    else Fields(blanks, w[1..], word + [w[0]])
  }

  function Pieces(blanks: Blanks, w: Text, isPrint: int -> bool): seq<Text> {
    if NeedsQuote(w) then [Literal(w, isPrint)] else Fields(blanks, w, [])
  }

  /** The words that arrive for the words sent. */
  function Arrived(blanks: Blanks, words: seq<Text>, isPrint: int -> bool): seq<Text> {
    if words == [] then [] else Pieces(blanks, words[0], isPrint) + Arrived(blanks, words[1..], isPrint)
  }

  /** Every character of w is printable. */
  predicate AllShown(w: Text, isPrint: int -> bool)
    decreases |w|
  {
    w == [] || (Shown(w[..Width(w)], isPrint) && AllShown(w[Width(w)..], isPrint))
  }

  /** Words that survive: not empty, printable where quoted and free of blanks where not. */
  predicate Carried(blanks: Blanks, w: Text, isPrint: int -> bool) {
    w != [] && if NeedsQuote(w) then AllShown(w, isPrint) else forall c :: c in w ==> c !in blanks
  }

  // ---- Parsing a quoted word ----------------------------------------------------------

  lemma {:induction false} ParseEscaped(blanks: Blanks, w: Text, rest: Text, word: Text, isPrint: int -> bool)
    ensures Parse(blanks, Escaped(w, isPrint) + [DQUOTE] + rest, Double, word)
            == Parse(blanks, rest, Bare, word + Literal(w, isPrint))
    decreases |w|
  {
    if w == [] {
      CloseQuote(blanks, rest, word);
      assert Escaped(w, isPrint) + [DQUOTE] + rest == [DQUOTE] + rest && word + Literal(w, isPrint) == word;
    } else {
      var u, more := w[..Width(w)], w[Width(w)..];
      ParseFirst(blanks, w, rest, word, isPrint);
      ParseEscaped(blanks, more, rest, word + Seen(u, isPrint), isPrint);
      assert word + Seen(u, isPrint) + Literal(more, isPrint) == word + Literal(w, isPrint);
    }
  }

  /** The first character of a quoted word. */
  lemma ParseFirst(blanks: Blanks, w: Text, rest: Text, word: Text, isPrint: int -> bool)
    requires w != []
    ensures Parse(blanks, Escaped(w, isPrint) + [DQUOTE] + rest, Double, word)
            == Parse(blanks, Escaped(w[Width(w)..], isPrint) + [DQUOTE] + rest, Double,
                     word + Seen(w[..Width(w)], isPrint))
  {
    EscapedStep(w, rest, isPrint);
    ParseEscape(blanks, w[..Width(w)], Escaped(w[Width(w)..], isPrint) + [DQUOTE] + rest, word, isPrint);
  }

  lemma CloseQuote(blanks: Blanks, rest: Text, word: Text)
    ensures Parse(blanks, [DQUOTE] + rest, Double, word) == Parse(blanks, rest, Bare, word)
  {
    assert ([DQUOTE] + rest)[1..] == rest;
  }

  lemma EscapedStep(w: Text, rest: Text, isPrint: int -> bool)
    requires w != []
    ensures Escaped(w, isPrint) + [DQUOTE] + rest
            == Escape(w[..Width(w)], isPrint) + (Escaped(w[Width(w)..], isPrint) + [DQUOTE] + rest)
  {
  }

  lemma ParseEscape(blanks: Blanks, u: Text, tail: Text, word: Text, isPrint: int -> bool)
    requires u != [] && (|u| > 1 ==> forall k :: 0 <= k < |u| ==> u[k] >= 0x80)
    ensures Parse(blanks, Escape(u, isPrint) + tail, Double, word)
            == Parse(blanks, tail, Double, word + Seen(u, isPrint))
  {
    var e := Escape(u, isPrint);
    if |u| == 1 && (u[0] == DQUOTE || u[0] == BACKSLASH) {
      assert (e + tail)[2..] == tail && [u[0]] == u;
    } else {
      EscapeIsPlain(u, isPrint);
      ParsePlainDouble(blanks, e, tail, word);
      assert |u| == 1 && Shown(u, isPrint) ==> e == u;
    }
  }

  /** Text that stands for itself inside double quotes: at most a leading backslash, and
  then not one that escapes. */
  predicate Plain(e: Text) {
    e != [] && DQUOTE !in e && BACKSLASH !in e[1..] && (e[0] == BACKSLASH ==> |e| > 1)
  }

  lemma EscapeIsPlain(u: Text, isPrint: int -> bool)
    requires u != [] && u != [DQUOTE] && u != [BACKSLASH]
    requires |u| > 1 ==> forall k :: 0 <= k < |u| ==> u[k] >= 0x80
    ensures Plain(Escape(u, isPrint))
  {
    if |u| == 1 {
      assert u == [u[0]];
      ByteIsPlain(u[0]);
    } else if !isPrint(CodePoint(u)) {
      HexIsPlain(0x75, CodePoint(u), 4);
      HexIsPlain(0x55, CodePoint(u), 8);
    }
  }

  lemma ByteIsPlain(c: Byte)
    requires c != DQUOTE && c != BACKSLASH
    ensures Plain(EscapeByte(c))
  {
    HexIsPlain(0x78, c, 2);
  }

  lemma HexIsPlain(letter: Byte, n: int, k: nat)
    requires letter != DQUOTE && letter != BACKSLASH
    ensures Plain([BACKSLASH, letter] + Hex(n, k))
  {
    var e := [BACKSLASH, letter] + Hex(n, k);
    assert e[1..] == [letter] + Hex(n, k);
  }

  lemma {:induction false} ParsePlainDouble(blanks: Blanks, e: Text, tail: Text, word: Text)
    requires Plain(e)
    ensures Parse(blanks, e + tail, Double, word) == Parse(blanks, tail, Double, word + e)
    decreases |e|
  {
    assert (e + tail)[1..] == e[1..] + tail;
    if |e| == 1 {
      assert e[1..] + tail == tail && [e[0]] == e;
    } else {
      assert e[1] in e[1..];
      assert forall c :: c in e[1..] ==> c in e;
      ParsePlainDouble(blanks, e[1..], tail, word + [e[0]]);
      assert word + [e[0]] + e[1..] == word + e;
    }
  }

  // ---- Parsing a printed word and a printed line ------------------------------------------

  /** What a printed word is followed by. */
  predicate Ends(rest: Text) {
    rest == [] || rest[0] == SPACE
  }

  lemma EndOfWord(blanks: Blanks, rest: Text, word: Text)
    requires Ends(rest)
    ensures Parse(blanks, rest, Bare, word) == After([word], Parse(blanks, rest, Gap, []))
  {
    if rest == [] {
      assert [word] + [] == [word];
    }
  }

  lemma {:induction false} ParseFields(blanks: Blanks, w: Text, rest: Text, word: Text)
    requires !NeedsQuote(w) && Ends(rest)
    ensures Parse(blanks, w + rest, if word == [] then Gap else Bare, word)
            == After(Fields(blanks, w, word), Parse(blanks, rest, Gap, []))
    decreases |w|
  {
    var mode := if word == [] then Gap else Bare;
    if w == [] {
      assert w + rest == rest;
      EndOfWord(blanks, rest, word);
      NoneAfter(Parse(blanks, rest, Gap, []));
    } else {
      var c, more := w[0], w[1..];
      assert c in w && !Special(c);
      assert forall d :: d in more ==> d in w;
      assert (w + rest)[1..] == more + rest;
      if c in blanks {
        ParseFields(blanks, more, rest, []);
        AfterTwice(if word == [] then [] else [word], Fields(blanks, more, []), Parse(blanks, rest, Gap, []));
        NoneAfter(Parse(blanks, more + rest, Gap, []));
      } else {
        ParseFields(blanks, more, rest, word + [c]);
      }
    }
  }

  lemma NoneAfter(rest: Option<seq<Text>>)
    ensures After([], rest) == rest
  {
    if rest.Some? {
      assert [] + rest.value == rest.value;
    }
  }

  lemma AfterTwice(a: seq<Text>, b: seq<Text>, rest: Option<seq<Text>>)
    ensures After(a, After(b, rest)) == After(a + b, rest)
  {
    if rest.Some? {
      assert a + (b + rest.value) == a + b + rest.value;
    }
  }

  lemma ParseWord(blanks: Blanks, w: Text, rest: Text, isPrint: int -> bool)
    requires Ends(rest)
    ensures Parse(blanks, QuoteIfNeeded(w, isPrint) + rest, Gap, [])
            == After(Pieces(blanks, w, isPrint), Parse(blanks, rest, Gap, []))
  {
    if NeedsQuote(w) {
      OpenQuote(blanks, Escaped(w, isPrint), rest);
      ParseEscaped(blanks, w, rest, [], isPrint);
      assert [] + Literal(w, isPrint) == Literal(w, isPrint);
      EndOfWord(blanks, rest, Literal(w, isPrint));
    } else {
      ParseFields(blanks, w, rest, []);
    }
  }

  lemma OpenQuote(blanks: Blanks, escaped: Text, rest: Text)
    ensures Parse(blanks, [DQUOTE] + escaped + [DQUOTE] + rest, Gap, [])
            == Parse(blanks, escaped + [DQUOTE] + rest, Double, [])
  {
    var t := escaped + [DQUOTE] + rest;
    assert [DQUOTE] + escaped + [DQUOTE] + rest == [DQUOTE] + t;
    assert ([DQUOTE] + t)[1..] == t;
  }

  lemma CommandLineStep(words: seq<Text>, isPrint: int -> bool)
    requires words != []
    ensures CommandLine(words, isPrint) == QuoteIfNeeded(words[0], isPrint)
                                           + if |words| == 1 then [] else [SPACE] + CommandLine(words[1..], isPrint)
  {
    assert QuoteAll(words, isPrint)[1..] == QuoteAll(words[1..], isPrint);
    if |words| == 1 {
      assert QuoteAll(words[1..], isPrint) == [];
      assert QuoteIfNeeded(words[0], isPrint) + [] == QuoteIfNeeded(words[0], isPrint);
    }
  }

  /** Every command line parses, into exactly the words that arrive. */
  lemma {:induction false} ParseCommandLine(blanks: Blanks, words: seq<Text>, isPrint: int -> bool)
    requires words != []
    ensures Tokens(blanks, CommandLine(words, isPrint)) == Some(Arrived(blanks, words, isPrint))
  {
    var tail := words[1..];
    var rest := if |words| == 1 then [] else [SPACE] + CommandLine(tail, isPrint);
    CommandLineStep(words, isPrint);
    ParseWord(blanks, words[0], rest, isPrint);
    if tail != [] {
      ParseCommandLine(blanks, tail, isPrint);
      assert rest[1..] == CommandLine(tail, isPrint);
    }
  }

  // ---- What survives the trip ----------------------------------------------------------

  lemma {:induction false} LiteralExactly(w: Text, isPrint: int -> bool)
    ensures |Literal(w, isPrint)| >= |w|
    ensures Literal(w, isPrint) == w <==> AllShown(w, isPrint)
    decreases |w|
  {
    if w != [] {
      var u, more := w[..Width(w)], w[Width(w)..];
      LiteralExactly(more, isPrint);
      SeenExactly(u, isPrint);
      Longer(w, u, Seen(u, isPrint), more, Literal(more, isPrint));
    }
  }

  lemma Longer(w: Text, u: Text, seen: Text, more: Text, rest: Text)
    requires |u| <= |w| && u == w[..|u|] && more == w[|u|..]
    requires (seen == u || |seen| > |u|) && |rest| >= |more|
    ensures seen + rest == w <==> seen == u && rest == more
  {
    assert w == u + more;
    assert (seen + rest)[|seen|..] == rest;
  }

  lemma {:induction false} LiteralBytes(w: Text, isPrint: int -> bool)
    ensures forall c :: c in Literal(w, isPrint) ==> c >= 0x20
    decreases |w|
  {
    if w != [] {
      LiteralBytes(w[Width(w)..], isPrint);
      SeenExactly(w[..Width(w)], isPrint);
    }
  }

  /** An escaped character is longer than the character, and every byte that arrives is at
  least a space. */
  lemma SeenExactly(u: Text, isPrint: int -> bool)
    requires u != [] && |u| <= 4 && (|u| > 1 ==> forall k :: 0 <= k < |u| ==> u[k] >= 0x80)
    ensures if Shown(u, isPrint) then Seen(u, isPrint) == u else |Seen(u, isPrint)| > |u|
    ensures forall c :: c in Seen(u, isPrint) ==> c >= 0x20
  {
  }

  /** A word that arrives in pieces: none is empty, and none contains a blank but a space. */
  predicate Solid(blanks: Blanks, w: Text) {
    w != [] && forall c :: c in w && c in blanks ==> c == SPACE
  }

  lemma {:induction false} FieldsAreSolid(blanks: Blanks, w: Text, word: Text)
    requires forall c :: c in word ==> c !in blanks
    ensures forall x :: x in Fields(blanks, w, word) ==> Solid(blanks, x)
    ensures (forall c :: c in w ==> c !in blanks) && word + w != [] ==> Fields(blanks, w, word) == [word + w]
    decreases |w|
  {
    if w == [] {
      assert word + w == word;
    } else {
      assert w[0] in w && forall c :: c in w[1..] ==> c in w;
      if w[0] in blanks {
        FieldsAreSolid(blanks, w[1..], []);
      } else {
        FieldsAreSolid(blanks, w[1..], word + [w[0]]);
        assert word + [w[0]] + w[1..] == word + w;
      }
    }
  }

  lemma PiecesAreSolid(blanks: Blanks, w: Text, isPrint: int -> bool)
    ensures forall x :: x in Pieces(blanks, w, isPrint) ==> Solid(blanks, x)
  {
    if NeedsQuote(w) {
      LiteralExactly(w, isPrint);
      LiteralBytes(w, isPrint);
    } else {
      FieldsAreSolid(blanks, w, []);
    }
  }

  lemma {:induction false} ArrivedAreSolid(blanks: Blanks, words: seq<Text>, isPrint: int -> bool)
    ensures forall x :: x in Arrived(blanks, words, isPrint) ==> Solid(blanks, x)
  {
    if words != [] {
      PiecesAreSolid(blanks, words[0], isPrint);
      ArrivedAreSolid(blanks, words[1..], isPrint);
    }
  }

  /** A solid word arrives in one piece, and unchanged exactly if it is carried. */
  lemma SolidPiece(blanks: Blanks, w: Text, isPrint: int -> bool)
    requires Solid(blanks, w)
    ensures |Pieces(blanks, w, isPrint)| == 1
    ensures Pieces(blanks, w, isPrint) == [w] <==> Carried(blanks, w, isPrint)
  {
    if NeedsQuote(w) {
      LiteralExactly(w, isPrint);
    } else {
      assert forall c :: c in w ==> !Special(c);
      FieldsAreSolid(blanks, w, []);
      assert [] + w == w;
    }
  }

  lemma {:induction false} SolidWords(blanks: Blanks, words: seq<Text>, isPrint: int -> bool)
    requires forall w :: w in words ==> Solid(blanks, w)
    ensures Arrived(blanks, words, isPrint) == words <==> forall w :: w in words ==> Carried(blanks, w, isPrint)
  {
    if words != [] {
      var w, tail := words[0], words[1..];
      assert forall v :: v in words <==> v == w || v in tail;
      SolidPiece(blanks, w, isPrint);
      SolidWords(blanks, tail, isPrint);
      OneAndRest(words, Pieces(blanks, w, isPrint), Arrived(blanks, tail, isPrint));
    }
  }

  lemma OneAndRest(words: seq<Text>, piece: seq<Text>, rest: seq<Text>)
    requires words != [] && |piece| == 1
    ensures piece + rest == words <==> piece == [words[0]] && rest == words[1..]
  {
    assert words == [words[0]] + words[1..];
    assert (piece + rest)[..1] == piece && (piece + rest)[1..] == rest;
  }

  lemma CarriedIsSolid(blanks: Blanks, w: Text, isPrint: int -> bool)
    requires Carried(blanks, w, isPrint)
    ensures Solid(blanks, w)
  {
    if NeedsQuote(w) {
      LiteralExactly(w, isPrint);
      LiteralBytes(w, isPrint);
    }
  }

  lemma ArrivedExactly(blanks: Blanks, words: seq<Text>, isPrint: int -> bool)
    ensures Arrived(blanks, words, isPrint) == words <==> forall w :: w in words ==> Carried(blanks, w, isPrint)
  {
    ArrivedAreSolid(blanks, words, isPrint);
    forall w | w in words && Carried(blanks, w, isPrint)
      ensures Solid(blanks, w)
    {
      CarriedIsSolid(blanks, w, isPrint);
    }
    if forall w :: w in words ==> Solid(blanks, w) {
      SolidWords(blanks, words, isPrint);
    }
  }

  /** The printer and the parser undo each other exactly on lists of carried words, for
  words of any bytes and whatever the printable characters and the parser's blanks are. */
  lemma RoundTripExactly(blanks: Blanks, command: Text, args: seq<Text>, isPrint: int -> bool)
    ensures var words := [command] + args;
            Tokens(blanks, CommandLine(words, isPrint)) == Some(words)
            <==> forall w :: w in words ==> Carried(blanks, w, isPrint)
  {
    ParseCommandLine(blanks, [command] + args, isPrint);
    ArrivedExactly(blanks, [command] + args, isPrint);
  }

  lemma {:induction false} PrintableIsShown(w: Text, isPrint: int -> bool)
    requires forall c :: c in w ==> Printable(c)
    ensures AllShown(w, isPrint)
    decreases |w|
  {
    if w != [] {
      assert w[0] in w && forall c :: c in w[1..] ==> c in w;
      PrintableIsShown(w[1..], isPrint);
    }
  }

  /** In particular every list of non-empty printable ASCII words survives. */
  lemma PrintableWordsRoundTrip(blanks: Blanks, words: seq<Text>, isPrint: int -> bool)
    requires words != [] && forall w :: w in words ==> w != [] && forall c :: c in w ==> Printable(c)
    ensures Tokens(blanks, CommandLine(words, isPrint)) == Some(words)
  {
    ParseCommandLine(blanks, words, isPrint);
    forall w | w in words
      ensures Carried(blanks, w, isPrint)
    {
      PrintableIsShown(w, isPrint);
      assert Special(SPACE);
    }
    ArrivedExactly(blanks, words, isPrint);
  }

  /** No two lists of carried words print alike. */
  lemma CommandLineInjective(a: seq<Text>, b: seq<Text>, isPrint: int -> bool)
    requires a != [] && b != [] && CommandLine(a, isPrint) == CommandLine(b, isPrint)
    requires forall w :: w in a ==> Carried({SPACE}, w, isPrint)
    requires forall w :: w in b ==> Carried({SPACE}, w, isPrint)
    ensures a == b
  {
    ParseCommandLine({SPACE}, a, isPrint);
    ParseCommandLine({SPACE}, b, isPrint);
    ArrivedExactly({SPACE}, a, isPrint);
    ArrivedExactly({SPACE}, b, isPrint);
  }

  // ---- Words that do not survive --------------------------------------------------------

  lemma OneWord(blanks: Blanks, w: Text, isPrint: int -> bool)
    ensures Tokens(blanks, CommandLine([w], isPrint)) == Some(Pieces(blanks, w, isPrint))
  {
    ParseCommandLine(blanks, [w], isPrint);
    assert [w][1..] == [] && Arrived(blanks, [], isPrint) == [];
    assert Pieces(blanks, w, isPrint) + [] == Pieces(blanks, w, isPrint);
  }

  /** An empty argument vanishes. */
  lemma EmptyWordIsLost(blanks: Blanks, isPrint: int -> bool)
    ensures Tokens(blanks, CommandLine([[0x61], []], isPrint)) == Some([[0x61]])
  {
    var a: Text := [0x61];
    var words: seq<Text> := [a, []];
    ParseCommandLine(blanks, words, isPrint);
    assert words[1..] == [[]] && words[1..][1..] == [];
    FieldsAreSolid(blanks, a, []);
    assert !NeedsQuote(a) && [] + a == a && Pieces(blanks, a, isPrint) == [a];
    assert Arrived(blanks, [[]], isPrint) == [];
    assert [a] + [] == [a];
  }

  /** A tab arrives as a backslash and a t. */
  lemma TabIsAltered(blanks: Blanks, isPrint: int -> bool)
    ensures Tokens(blanks, CommandLine([[TAB]], isPrint)) == Some([[BACKSLASH, 0x74]])
  {
    var w: Text := [TAB];
    OneWord(blanks, w, isPrint);
    assert TAB in w && Special(TAB) && NeedsQuote(w);
    assert w[..1] == w && w[1..] == [] && Literal([], isPrint) == [];
    assert Escape(w, isPrint) == [BACKSLASH, 0x74] && !Shown(w, isPrint);
    assert Literal(w, isPrint) == Escape(w, isPrint) + [] == [BACKSLASH, 0x74];
    assert Pieces(blanks, w, isPrint) == [[BACKSLASH, 0x74]];
  }

  /** A carriage return is not quoted, so it separates words if the parser says so. */
  lemma CarriageReturnSplits(blanks: Blanks, isPrint: int -> bool)
    requires CR in blanks
    ensures Tokens(blanks, CommandLine([[0x61, CR, 0x62]], isPrint)) == Some([[0x61], [0x62]])
  {
    var w: Text := [0x61, CR, 0x62];
    OneWord(blanks, w, isPrint);
    assert !NeedsQuote(w);
    assert w[1..] == [CR, 0x62] && w[1..][1..] == [0x62] && w[1..][1..][1..] == [];
    var a: Text, b: Text := [0x61], [0x62];
    assert [] + a == a && [] + b == b;
    assert Fields(blanks, [], b) == [b];
    assert Fields(blanks, b, []) == [b];
    assert Fields(blanks, [CR] + b, a) == [a] + [b];
    assert w[1..] == [CR] + b && ([CR] + b)[1..] == b;
    assert Fields(blanks, w, []) == Fields(blanks, w[1..], a) == [a, b];
    assert Pieces(blanks, w, isPrint) == [a, b];
  }
}
