/** The reads of golang.org/x/crypto/cryptobyte that pkg/muxtunnel.go uses. A read either
    fails or yields what it read and the rest of the string. */
module Cryptobyte {
  import opened GoBytes

  datatype Read = Short | Got(data: Bytes, rest: Bytes)

  function ReadBytes(s: Bytes, n: nat): Read {
    if |s| < n then Short else Got(s[..n], s[n..])
  }

  /** Big-endian. */
  function Uint16(s: Bytes): nat
    requires |s| == 2
  {
    var hi: int, lo: int := s[0], s[1];
    256 * hi + lo
  }

  function ReadUint8LengthPrefixed(s: Bytes): Read {
    if |s| < 1 then Short else ReadBytes(s[1..], s[0])
  }

  function ReadUint16LengthPrefixed(s: Bytes): Read {
    if |s| < 2 then Short else ReadBytes(s[2..], Uint16(s[..2]))
  }

  // ---- the writers these reads invert ----

  function U16(n: nat): Bytes
    requires n < 65536
  {
    [n / 256, n % 256]
  }

  function Vec8(data: Bytes): Bytes
    requires |data| < 256
  {
    [|data|] + data
  }

  function Vec16(data: Bytes): Bytes
    requires |data| < 65536
  {
    U16(|data|) + data
  }

  lemma ReadBytesExact(s: Bytes, n: nat, data: Bytes, rest: Bytes)
    ensures ReadBytes(s, n) == Got(data, rest) <==> |data| == n && s == data + rest
  {
  }

  /** A length-prefixed read yields data and rest exactly on the writer's output. */
  lemma ReadVec8Exact(s: Bytes, data: Bytes, rest: Bytes)
    ensures ReadUint8LengthPrefixed(s) == Got(data, rest) <==> |data| < 256 && s == Vec8(data) + rest
  {
  }

  lemma U16Exact(s: Bytes, n: nat)
    requires |s| == 2
    ensures Uint16(s) < 65536
    ensures Uint16(s) == n <==> n < 65536 && s == U16(n)
  {
  }

  /** Network byte order: numbers compare as their two bytes do, first byte first. */
  lemma U16Order(m: nat, n: nat)
    requires m < 65536 && n < 65536
    ensures var a, b := U16(m), U16(n);
      m < n <==> a[0] < b[0] || (a[0] == b[0] && a[1] < b[1])
  {
  }

  lemma ReadVec16Exact(s: Bytes, data: Bytes, rest: Bytes)
    ensures ReadUint16LengthPrefixed(s) == Got(data, rest) <==> |data| < 65536 && s == Vec16(data) + rest
  {
  }
}
