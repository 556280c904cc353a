/** Go strings and byte slices: finite sequences of 8-bit values. */
module GoBytes {
  type Byte = x: int | 0 <= x < 256
  type Bytes = seq<Byte>

  datatype Option<+T> = None | Some(value: T)

  const COLON: Byte := ':' as int
  const DASH: Byte := '-' as int
  const DOT: Byte := '.' as int
  const SPACE: Byte := ' ' as int
  const NEWLINE: Byte := '\n' as int

  /** A literal of the source; its characters are all ASCII. */
  function Ascii(s: string): seq<int> {
    seq(|s|, i requires 0 <= i < |s| => s[i] as int)
  }

  lemma SeparatorsAreAscii()
    ensures [COLON, DASH, DOT, SPACE, NEWLINE] == Ascii(":-. \n")
  {
  }

  /** The first index of c in s, or |s| when c does not occur. */
  function IndexOf(s: Bytes, c: Byte): (i: nat)
    ensures i <= |s|
    ensures forall k :: 0 <= k < i ==> s[k] != c
    ensures i < |s| ==> s[i] == c
  {
    if s == [] || s[0] == c then 0 else IndexOf(s[1..], c) + 1
  }

  /** IndexOf is the only index with its two properties. */
  lemma IndexOfUnique(s: Bytes, c: Byte, i: nat)
    requires i <= |s| && forall k :: 0 <= k < i ==> s[k] != c
    requires i < |s| ==> s[i] == c
    ensures IndexOf(s, c) == i
  {
  }

  lemma CutAt(s: Bytes, i: nat)
    requires i < |s|
    ensures s == s[..i] + [s[i]] + s[i + 1..]
  {
  }
}
