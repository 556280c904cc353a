/** The length-prefixed connect frame of pkg/types.go: readFrame and sendSerializedObject. */
module Framing {
  import opened GoBytes

  /** Little-endian 16-bit integers. */
  function Le16(n: nat): Bytes
    requires n < 65536
  {
    [n % 256, n / 256]
  }

  function FromLe16(b: Bytes): nat
    requires |b| == 2
  {
    var lo: int, hi: int := b[0], b[1];
    lo + 256 * hi
  }

  lemma Le16RoundTrip(n: nat)
    requires n < 65536
    ensures FromLe16(Le16(n)) == n
  {
  }

  /** The length field holds only the low 16 bits of the payload's length. */
  function FrameBytes(payload: Bytes): Bytes {
    Le16(|payload| % 65536) + payload
  }

  // ---- streams ----

  /** The bytes of a stream, in the portions its reader gets to see. */
  function Flat(portions: seq<Bytes>): Bytes {
    if portions == [] then [] else portions[0] + Flat(portions[1..])
  }

  datatype ReadResult = ReadResult(data: Bytes, rest: seq<Bytes>, ok: bool)

  /** One Read into a buffer of n bytes: at most what the first portion holds. */
  function ReadOnce(portions: seq<Bytes>, n: nat): ReadResult {
    if n == 0 then ReadResult([], portions, true)
    else if portions == [] then ReadResult([], [], false)
    else if |portions[0]| <= n then ReadResult(portions[0], portions[1..], true)
    else ReadResult(portions[0][..n], [portions[0][n..]] + portions[1..], true)
  }

  lemma ReadKeepsBytes(portions: seq<Bytes>, n: nat)
    ensures var r := ReadOnce(portions, n);
      Flat(portions) == r.data + Flat(r.rest) && |r.data| <= n
  {
    if n > 0 && portions != [] && |portions[0]| > n {
      assert ([portions[0][n..]] + portions[1..])[1..] == portions[1..];
      assert portions[0] == portions[0][..n] + portions[0][n..];
    }
  }

  class Conn {
    var incoming: seq<Bytes>
    var outgoing: Bytes
    var capacity: nat  // how many more bytes Write will take

    method Read(b: array<Byte>, n: nat) returns (l: nat, ok: bool)
      requires n <= b.Length
      modifies this`incoming, b
      ensures var r := ReadOnce(old(incoming), n);
        && l == |r.data| <= n && ok == r.ok && incoming == r.rest
        && b[..l] == r.data
      ensures forall i :: l <= i < b.Length ==> b[i] == old(b[i])
    {
      ReadKeepsBytes(incoming, n);
      var r := ReadOnce(incoming, n);
      var i := 0;
      while i < |r.data|
        invariant 0 <= i <= |r.data| <= n
        invariant b[..i] == r.data[..i]
        invariant forall k :: i <= k < b.Length ==> b[k] == old(b[k])
        invariant incoming == old(incoming)
      {
        b[i] := r.data[i];
        i := i + 1;
      }
      incoming := r.rest;
      return |r.data|, r.ok;
    }

    method Write(data: Bytes) returns (l: nat, ok: bool)
      modifies this`outgoing, this`capacity
      ensures l == if |data| <= old(capacity) then |data| else old(capacity)
      ensures ok <==> l == |data|
      ensures outgoing == old(outgoing) + data[..l] && capacity == old(capacity) - l
    {
      l := if |data| <= capacity then |data| else capacity;
      outgoing := outgoing + data[..l];
      capacity := capacity - l;
      ok := l == |data|;
    }
  }

  datatype FrameResult = FrameResult(payload: Option<Bytes>, rest: seq<Bytes>)

  /** readFrame: any read that comes up short is an error. */
  function Frame(portions: seq<Bytes>): FrameResult {
    var r := ReadOnce(portions, 2);
    if !r.ok || |r.data| != 2 then FrameResult(None, r.rest)
    else
      var n := FromLe16(r.data);
      if n > 1000 then FrameResult(None, r.rest)
      else
        var q := ReadOnce(r.rest, n);
        if !q.ok || |q.data| != n then FrameResult(None, q.rest) else FrameResult(Some(q.data), q.rest)
  }

  method ReadFrame(conn: Conn) returns (r: Option<Bytes>)
    modifies conn`incoming
    ensures FrameResult(r, conn.incoming) == Frame(old(conn.incoming))
  {
    var b := new Byte[1000](_ => 0);
    var l, ok := conn.Read(b, 2);
    if !ok || l != 2 {
      return None;
    }
    var payloadLen := FromLe16(b[..2]);
    if payloadLen > b.Length {
      return None;
    }
    l, ok := conn.Read(b, payloadLen);
    if !ok || l != payloadLen {
      return None;
    }
    r := Some(b[..payloadLen]);
  }

  /** The code's two length checks, after taken bytes of the frame have been written. */
  predicate ReportsSuccess(b: Bytes, taken: nat) {
    2 <= taken <= |FrameBytes(b)| && (taken - 2) % 65536 == |b| % 65536
  }

  /** sendSerializedObject on an object already serialized to b. ok is false where the
      code returns an error. */
  method SendSerializedObject(conn: Conn, b: Bytes) returns (ok: bool)
    modifies conn`outgoing, conn`capacity
    ensures var frame := FrameBytes(b);
      var taken := if |frame| <= old(conn.capacity) then |frame| else old(conn.capacity);
      && conn.outgoing == old(conn.outgoing) + frame[..taken]
      && (ok <==> ReportsSuccess(b, taken))
      && (ok <==> taken >= 2 && (|b| + 2 - taken) % 65536 == 0)
    ensures |b| < 65536 ==> (ok <==> old(conn.capacity) >= |b| + 2)
    ensures old(conn.capacity) >= |b| + 2 ==> ok && conn.outgoing == old(conn.outgoing) + FrameBytes(b)
  {
    ghost var space := conn.capacity;
    ReportsSuccessIff(b, if |b| + 2 <= space then |b| + 2 else space);
    var payloadLen := |b| % 65536;
    var l := Le16(payloadLen);
    var ll, werr := conn.Write(l);
    assert FrameBytes(b)[..ll] == l[..ll];
    if ll % 65536 != 2 {
      return false;
    }
    ll, werr := conn.Write(b);
    assert FrameBytes(b)[..2 + ll] == l + b[..ll];
    ok := ll % 65536 == payloadLen;
  }

  /** Success is reported exactly when what is missing is a multiple of 65536 bytes, so
      always for a frame written whole. */
  lemma ReportsSuccessIff(b: Bytes, taken: nat)
    requires taken <= |b| + 2
    ensures ReportsSuccess(b, taken) <==> taken >= 2 && (|b| + 2 - taken) % 65536 == 0
  {
    if taken >= 2 {
      var a, c := taken - 2, |b|;
      assert a / 65536 * 65536 + a % 65536 == a && c / 65536 * 65536 + c % 65536 == c;
      if a % 65536 == c % 65536 {
        assert c - a == (c / 65536 - a / 65536) * 65536;
      }
    }
  }

  /** Success means that the frame was written whole exactly for payloads whose length fits
      its field: of a longer one the last 65536 bytes can be missing. */
  lemma SuccessMeansWholeIff(b: Bytes)
    ensures (forall taken: nat :: ReportsSuccess(b, taken) ==> taken == |FrameBytes(b)|) <==> |b| < 65536
  {
    if |b| >= 65536 {
      assert ReportsSuccess(b, |FrameBytes(b)| - 65536);
    }
  }

  // ---- theorems ----

  /** However the reads are cut: a frame that is read is the whole payload announced by
      its length, at most 1000 bytes, and no later byte is consumed with it. */
  lemma FrameSound(portions: seq<Bytes>)
    ensures var f := Frame(portions);
      f.payload.Some? ==>
        |f.payload.value| <= 1000 && Flat(portions) == FrameBytes(f.payload.value) + Flat(f.rest)
  {
    var f, r := Frame(portions), ReadOnce(portions, 2);
    if f.payload.Some? {
      ReadKeepsBytes(portions, 2);
      ReadKeepsBytes(r.rest, FromLe16(r.data));
      LengthField(r.data, f.payload.value, Flat(f.rest));
    }
  }

  /** What the reads must hold for p to be read: the length, low byte first, and all of p,
      in one portion or as one portion and the front of the next. */
  predicate Arrives(portions: seq<Bytes>, p: Bytes) {
    && portions != [] && |p| < 65536
    && var length: Bytes := [|p| % 256, |p| / 256];
       || length + p <= portions[0]
       || (portions[0] == length && |portions| > 1 && p <= portions[1])
  }

  /** Exactly when a frame is read, whatever the portions: no frame cut anywhere else is. */
  lemma FrameExact(portions: seq<Bytes>, p: Bytes)
    ensures Frame(portions).payload == Some(p) <==> |p| <= 1000 && Arrives(portions, p)
  {
    var r := ReadOnce(portions, 2);
    if portions != [] && |r.data| == 2 {
      LengthBytes(r.data, p);
      assert portions[0][..2] == r.data;
      FrontOf(portions[0], r.data, p);
      ReadsFront(r.rest, p);
      if |portions[0]| == 2 {
        assert portions[0][2..] == [] && r.rest == portions[1..];
      }
    }
  }

  /** A single read yields p exactly when the first portion begins with it. */
  lemma ReadsFront(portions: seq<Bytes>, p: Bytes)
    ensures ReadOnce(portions, |p|).ok && ReadOnce(portions, |p|).data == p
            <==> p == [] || (portions != [] && p <= portions[0])
  {
  }

  lemma LengthBytes(l: Bytes, p: Bytes)
    requires |l| == 2
    ensures FromLe16(l) == |p| <==> |p| < 65536 && l == [|p| % 256, |p| / 256]
  {
  }

  lemma FrontOf(b: Bytes, l: Bytes, p: Bytes)
    requires |l| == 2 <= |b| && b[..2] == l
    ensures l + p <= b <==> p <= b[2..]
  {
    if p <= b[2..] {
      assert b == l + b[2..];
    }
  }

  /** In particular every frame of at most 1000 bytes that comes in one portion. */
  lemma FrameInOnePortion(p: Bytes, more: Bytes)
    requires |p| <= 1000
    ensures var f := Frame([FrameBytes(p) + more]);
      f.payload == Some(p) && Flat(f.rest) == more
  {
    var portions := [FrameBytes(p) + more];
    assert FrameBytes(p) == [|p| % 256, |p| / 256] + p;
    FrameExact(portions, p);
    FrameSound(portions);
    assert Flat(portions) == portions[0] + Flat(portions[1..]) == portions[0];
  }

  lemma LengthField(l: Bytes, payload: Bytes, more: Bytes)
    requires |l| == 2 && FromLe16(l) == |payload|
    ensures l + (payload + more) == FrameBytes(payload) + more
  {
  }

  /** Each read returns all it was asked for. */
  ghost predicate FullReads(portions: seq<Bytes>) {
    var r := ReadOnce(portions, 2);
    && |r.data| == 2
    && (FromLe16(r.data) <= 1000 ==> |ReadOnce(r.rest, FromLe16(r.data)).data| == FromLe16(r.data))
  }

  /** With full reads, the outcome depends only on the payload's length modulo 65536. */
  lemma FrameOutcome(payload: Bytes, more: Bytes, portions: seq<Bytes>)
    requires Flat(portions) == FrameBytes(payload) + more && FullReads(portions)
    ensures var f, n := Frame(portions), |payload| % 65536;
      if n > 1000 then f.payload == None
      else f.payload == Some(payload[..n]) && Flat(f.rest) == payload[n..] + more
  {
    var n := |payload| % 65536;
    var r := ReadOnce(portions, 2);
    ReadKeepsBytes(portions, 2);
    Halves(r.data, Flat(r.rest), Le16(n), payload + more);
    Le16RoundTrip(n);
    if n <= 1000 {
      var q := ReadOnce(r.rest, n);
      ReadKeepsBytes(r.rest, n);
      Halves(q.data, Flat(q.rest), payload[..n], payload[n..] + more);
    }
  }

  lemma Halves(a: Bytes, b: Bytes, c: Bytes, d: Bytes)
    requires |a| == |c| && a + b == c + d
    ensures a == c && b == d
  {
    assert a == (a + b)[..|a|] && b == (a + b)[|a|..];
    assert c == (c + d)[..|c|] && d == (c + d)[|c|..];
  }

  /** The round trip, with its exact bound: with full reads the payload comes back and
      everything after it stays unread exactly for payloads of at most 1000 bytes. */
  lemma FrameRoundTripIff(payload: Bytes, more: Bytes, portions: seq<Bytes>)
    requires Flat(portions) == FrameBytes(payload) + more && FullReads(portions)
    ensures Frame(portions).payload == Some(payload) && Flat(Frame(portions).rest) == more <==> |payload| <= 1000
  {
    FrameOutcome(payload, more, portions);
    if |payload| <= 1000 {
      assert payload[..|payload|] == payload && payload[|payload|..] + more == more;
    }
  }
}
