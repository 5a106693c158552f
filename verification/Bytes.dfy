/** Bytes, byte strings and the small sequence facts every other module uses.

Text is modelled as bytes: every class in the repository's regular expressions is
ASCII, so no decoding step can change what they match. */
module Bytes {

  type Byte = b: int | 0 <= b < 256

  type Text = seq<Byte>

  datatype Option<+T> = None | Some(value: T)

  /** The first of two alternatives that is present. */
  function OrElse<T>(a: Option<T>, b: Option<T>): Option<T> {
    if a.Some? then a else b
  }

  const BEL: Byte := 0x07
  const TAB: Byte := 0x09
  const NL: Byte := 0x0A
  const CR: Byte := 0x0D
  const ESC: Byte := 0x1B
  const SPACE: Byte := 0x20
  const DQUOTE: Byte := 0x22
  const SQUOTE: Byte := 0x27
  const BACKSLASH: Byte := 0x5C
  const DEL: Byte := 0x7F

  /** The last n elements of s, or all of s when it is shorter: what an overwriting
  ring of capacity n keeps. */
  function LastN<T>(s: seq<T>, n: nat): seq<T> {
    if |s| <= n then s else s[|s| - n..]
  }

  /** Truncating early loses nothing that truncating late would keep. */
  lemma LastNAppend<T>(s: seq<T>, more: seq<T>, n: nat)
    ensures LastN(LastN(s, n) + more, n) == LastN(s + more, n)
  {
    if |s| > n {
      var cut := |s| - n;
      assert s[cut..] + more == (s + more)[cut..];
    }
  }

  /** One byte of a chunk at a time: the step of an overwriting write. */
  lemma LastNStep<T>(s: seq<T>, chunk: seq<T>, i: nat, n: nat)
    requires i < |chunk|
    ensures LastN(LastN(s + chunk[..i], n) + [chunk[i]], n) == LastN(s + chunk[..i + 1], n)
  {
    LastNAppend(s + chunk[..i], [chunk[i]], n);
    assert s + chunk[..i] + [chunk[i]] == s + chunk[..i + 1];
  }

  lemma Inhabited(s: set<int>)
    ensures s != {} ==> exists x :: x in s
  {
    if forall x :: x !in s {
      assert s == {};
    }
  }
}
