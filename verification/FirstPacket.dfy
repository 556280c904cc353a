/** Recognising the first packet of a user connection: getSNITarget and its three decoders
    in pkg/muxtunnel.go, and the PROXY printer of cmd/goreverselb/stdinProxy.go. */
module FirstPacket {
  import opened GoBytes
  import opened Cryptobyte
  import opened TlsHello

  /** "PROXY->" and "CONNECT ". */
  const PROXY: Bytes := [80, 82, 79, 88, 89, 45, 62]
  const CONNECT: Bytes := [67, 79, 78, 78, 69, 67, 84, 32]

  lemma WordsAreAscii()
    ensures PROXY == Ascii("PROXY->") && CONNECT == Ascii("CONNECT ")
  {
  }

  datatype Proxied = Proxied(name: Bytes, consumed: nat)

  /** tryProxyDecode. */
  function ProxyDecode(b: Bytes): Proxied {
    if |b| > 256 then Proxied([], 0)
    else
      match ReadBytes(b, 7)
      case Short => Proxied([], 0)
      case Got(word, s) =>
        if word != PROXY then Proxied([], 0)
        else
          match ReadUint8LengthPrefixed(s)
          case Short => Proxied([], 0)
          case Got(name, _) => if name == [] then Proxied([], 0) else Proxied(name, |name| + |PROXY| + 1)
  }

  /** tryHTTPProxyDecode up to its reply: the target, with the space that ends it. */
  function ConnectTarget(b: Bytes): Option<Bytes> {
    var i := IndexOf(b, SPACE);
    if i == |b| || b[..i + 1] != CONNECT then None
    else
      var rest := b[i + 1..];
      var j := IndexOf(rest, SPACE);
      if j == |rest| then None else Some(rest[..j + 1])
  }

  /** What getSNITarget returns; leg is None for Go's nil slice. */
  datatype Sniffed = Sniffed(target: Bytes, leg: Option<Bytes>)

  /** replyOk: whether the CONNECT reply could be written. */
  function Sniff(b: Bytes, replyOk: bool): Sniffed {
    if Decode(b) != [] then Sniffed(Decode(b), Some(b))
    else if ProxyDecode(b).name != [] then
      ProxyInBounds(b);
      Sniffed(ProxyDecode(b).name, Some(b[ProxyDecode(b).consumed..]))
    else if ConnectTarget(b).Some? && replyOk then Sniffed(ConnectTarget(b).value, None)
    else Sniffed([], Some(b))
  }

  lemma ProxyInBounds(b: Bytes)
    ensures ProxyDecode(b).consumed <= |b|
  {
  }

  /** getSNITarget on a first read of b. replied says whether the CONNECT reply was
      attempted. */
  method GetSNITarget(b: Bytes, replyOk: bool) returns (r: Sniffed, replied: bool)
    ensures r == Sniff(b, replyOk)
    ensures replied <==> !IsHello(b) && !IsProxy(b) && IsConnect(b)
  {
    HelloDecodes(b);
    ProxyDecodes(b);
    ConnectDecodes(b);
    replied := false;
    var serverName := TryTLSDecode(b);
    if |serverName| > 0 {
      return Sniffed(serverName, Some(b)), false;
    }
    var proxied := ProxyDecode(b);
    if |proxied.name| > 0 {
      ProxyInBounds(b);
      return Sniffed(proxied.name, Some(b[proxied.consumed..])), false;
    }
    var target := ConnectTarget(b);
    if target.Some? {
      replied := true;
      if replyOk {
        return Sniffed(target.value, None), true;
      }
    }
    r := Sniffed([], Some(b));
  }

  // ---- exactly what each decoder takes ----

  lemma ProxyAccepts(n: Bytes, rest: Bytes)
    requires 0 < |n| < 256 && 8 + |n| + |rest| <= 256
    ensures ProxyDecode(PROXY + (Vec8(n) + rest)) == Proxied(n, 8 + |n|)
  {
    ReadBytesExact(PROXY + (Vec8(n) + rest), 7, PROXY, Vec8(n) + rest);
    ReadVec8Exact(Vec8(n) + rest, n, rest);
  }

  lemma ProxyParses(b: Bytes) returns (rest: Bytes)
    requires ProxyDecode(b).name != []
    ensures var n := ProxyDecode(b).name;
      |b| <= 256 && |n| < 256 && b == PROXY + (Vec8(n) + rest)
  {
    var s := b[7..];
    assert b == b[..7] + s;
    var got := ReadUint8LengthPrefixed(s);
    ReadVec8Exact(s, got.data, got.rest);
    rest := got.rest;
  }

  /** tryProxyDecode takes exactly the packets of at most 256 bytes that begin with the
      word and a non-empty length-prefixed name. */
  lemma ProxyExact(b: Bytes, n: Bytes)
    requires n != []
    ensures ProxyDecode(b).name == n <==> |b| <= 256 && |n| < 256 && PROXY + Vec8(n) <= b
    ensures ProxyDecode(b).name == n ==> ProxyDecode(b).consumed == |PROXY + Vec8(n)|
  {
  }

  lemma ConnectAccepts(target: Bytes, rest: Bytes)
    requires SPACE !in target
    ensures ConnectTarget(CONNECT + (target + ([SPACE] + rest))) == Some(target + [SPACE])
  {
    var after := target + ([SPACE] + rest);
    var b := CONNECT + after;
    assert b[..7] == CONNECT[..7] && b[..8] == CONNECT && b[8..] == after;
    IndexOfUnique(b, SPACE, 7);
    assert after[..|target|] == target && after[..|target| + 1] == target + [SPACE];
    IndexOfUnique(after, SPACE, |target|);
  }

  /** tryHTTPProxyDecode takes exactly "CONNECT ", a space-free target and a space; what it
      returns keeps that space. */
  lemma ConnectExact(b: Bytes, target: Bytes)
    requires SPACE !in target
    ensures ConnectTarget(b) == Some(target + [SPACE]) <==> CONNECT + target + [SPACE] <= b
  {
    if CONNECT + target + [SPACE] <= b {
      var rest := b[|target| + 9..];
      assert b == CONNECT + target + [SPACE] + rest == CONNECT + (target + ([SPACE] + rest));
      ConnectAccepts(target, rest);
    }
    if ConnectTarget(b) == Some(target + [SPACE]) {
      ConnectParses(b, target);
    }
  }

  lemma ConnectParses(b: Bytes, target: Bytes)
    requires ConnectTarget(b) == Some(target + [SPACE])
    ensures CONNECT + target + [SPACE] <= b
  {
    var i := IndexOf(b, SPACE);
    var rest := b[i + 1..];
    assert b == CONNECT + rest;
    assert target + [SPACE] <= rest;
  }

  /** The three decoders do not compete on a packet without NUL bytes: TLS takes none, and
      the other two begin differently. */
  lemma NulFreeDispatch(b: Bytes, replyOk: bool)
    requires NulFree(b)
    ensures Decode(b) == []
    ensures ProxyDecode(b).name != [] ==> ConnectTarget(b).None?
    ensures Sniff(b, replyOk).target == [] <==>
      ProxyDecode(b).name == [] && !(ConnectTarget(b).Some? && replyOk)
  {
    NulFreeNeverDecodes(b);
    if ProxyDecode(b).name != [] {
      var rest := ProxyParses(b);
      assert b[0] == 80;
    }
  }

  // ---- exactly what the dispatch returns ----

  /** b is a ClientHello with a single host name. */
  ghost predicate IsHello(b: Bytes) {
    exists n :: n != [] && Announces(b, n)
  }

  /** b begins with the word and the length-prefixed name, and is short enough. */
  predicate ProxyPacket(b: Bytes, name: Bytes) {
    0 < |name| < 256 && |b| <= 256 && PROXY + Vec8(name) <= b
  }

  ghost predicate IsProxy(b: Bytes) {
    exists name :: ProxyPacket(b, name)
  }

  /** b begins with the word, a target and a space. */
  predicate ConnectPacket(b: Bytes, target: Bytes) {
    SPACE !in target && CONNECT + target + [SPACE] <= b
  }

  ghost predicate IsConnect(b: Bytes) {
    exists target :: ConnectPacket(b, target)
  }

  lemma HelloDecodes(b: Bytes)
    ensures IsHello(b) <==> Decode(b) != []
  {
    if Decode(b) != [] {
      DecodeExact(b, Decode(b));
    }
    if n :| n != [] && Announces(b, n) {
      DecodeExact(b, n);
    }
  }

  lemma ProxyDecodes(b: Bytes)
    ensures IsProxy(b) <==> ProxyDecode(b).name != []
    ensures forall name :: ProxyPacket(b, name) ==> ProxyDecode(b) == Proxied(name, |PROXY| + 1 + |name|)
  {
    forall name | ProxyPacket(b, name) ensures ProxyDecode(b) == Proxied(name, |PROXY| + 1 + |name|) {
      ProxyExact(b, name);
    }
    if ProxyDecode(b).name != [] {
      ProxyExact(b, ProxyDecode(b).name);
      assert ProxyPacket(b, ProxyDecode(b).name);
    }
  }

  lemma ConnectDecodes(b: Bytes)
    ensures IsConnect(b) <==> ConnectTarget(b).Some?
  {
    if target :| ConnectPacket(b, target) {
      ConnectExact(b, target);
    }
    if ConnectTarget(b).Some? {
      var rest := b[IndexOf(b, SPACE) + 1..];
      var j := IndexOf(rest, SPACE);
      assert rest[..j + 1] == rest[..j] + [SPACE];
      ConnectExact(b, rest[..j]);
      assert ConnectPacket(b, rest[..j]);
    }
  }

  /** A target with the whole packet kept is a host name the packet announces. */
  lemma SniffHelloExact(b: Bytes, replyOk: bool, n: Bytes)
    requires n != []
    ensures Sniff(b, replyOk) == Sniffed(n, Some(b)) <==> Announces(b, n)
  {
    DecodeExact(b, n);
    if Decode(b) == [] && ProxyDecode(b).name != [] {
      assert |b[ProxyDecode(b).consumed..]| < |b|;
    }
  }

  /** A target with a shorter packet kept is the name of a PROXY preamble, and what is kept
      is all that follows the name. */
  lemma SniffProxyExact(b: Bytes, replyOk: bool, n: Bytes, rest: Bytes)
    requires n != []
    ensures Sniff(b, replyOk) == Sniffed(n, Some(rest)) && rest != b <==>
      !IsHello(b) && |b| <= 256 && |n| < 256 && b == PROXY + Vec8(n) + rest
  {
    HelloDecodes(b);
    ProxyExact(b, n);
    if |n| < 256 {
      CutPrefix(PROXY + Vec8(n), rest, b);
    }
    if ProxyDecode(b).name != [] {
      assert |b[ProxyDecode(b).consumed..]| < |b|;
    }
  }

  lemma CutPrefix(p: Bytes, rest: Bytes, b: Bytes)
    ensures b == p + rest <==> p <= b && b[|p|..] == rest
  {
    if p <= b {
      assert b == p + b[|p|..];
    }
  }

  /** A target with nothing kept is that of a CONNECT request that could be answered. */
  lemma SniffConnectExact(b: Bytes, replyOk: bool, target: Bytes)
    requires SPACE !in target
    ensures Sniff(b, replyOk) == Sniffed(target + [SPACE], None) <==>
      !IsHello(b) && replyOk && CONNECT + target + [SPACE] <= b
  {
    HelloDecodes(b);
    ConnectExact(b, target);
    if ProxyDecode(b).name != [] {
      var rest := ProxyParses(b);
      assert b[0] == 80;
    }
  }

  // ---- the PROXY preamble ----

  function Preamble(name: Bytes): Bytes {
    PROXY + [|name| % 256] + name + [NEWLINE]
  }

  /** doProxy in stdinProxy.go: successive writes into a buffer. What is written is
      recognised as that name, and up to its newline, exactly for 1 to 247 bytes that do
      not make it a ClientHello. */
  method WritePreamble(instanceName: Bytes) returns (buffer: Bytes)
    ensures buffer == Preamble(instanceName)
    ensures |buffer| == |instanceName| + 9 && PROXY <= buffer && buffer[7] == |instanceName| % 256
    ensures buffer[8..8 + |instanceName|] == instanceName && buffer[8 + |instanceName|] == NEWLINE
    ensures forall replyOk :: Sniff(buffer, replyOk) == Sniffed(instanceName, Some([NEWLINE])) <==>
      1 <= |instanceName| <= 247 && !IsHello(buffer)
  {
    buffer := [];
    buffer := buffer + PROXY;
    buffer := buffer + [|instanceName| % 256];
    buffer := buffer + instanceName;
    buffer := buffer + [NEWLINE];
    forall replyOk
      ensures Sniff(Preamble(instanceName), replyOk) == Sniffed(instanceName, Some([NEWLINE])) <==>
        1 <= |instanceName| <= 247 && !IsHello(Preamble(instanceName))
    {
      PreambleRoundTripIff(instanceName, replyOk);
    }
  }

  lemma PreambleProxies(name: Bytes)
    ensures 1 <= |name| <= 247 ==> ProxyDecode(Preamble(name)) == Proxied(name, 8 + |name|)
    ensures !(1 <= |name| <= 247) ==> ProxyDecode(Preamble(name)).name == []
  {
    var b := Preamble(name);
    if 1 <= |name| <= 247 {
      assert b == PROXY + (Vec8(name) + [NEWLINE]);
      ProxyAccepts(name, [NEWLINE]);
    } else if name == [] {
      assert b[..7] == PROXY && b[7..] == [0, NEWLINE] == Vec8([]) + [NEWLINE];
      ReadVec8Exact(b[7..], [], [NEWLINE]);
    }
  }

  /** Printing and parsing agree exactly for names of 1 to 247 bytes whose preamble is not
      also a ClientHello: the server then routes to the name and forwards the newline. */
  lemma PreambleRoundTripIff(name: Bytes, replyOk: bool)
    ensures Sniff(Preamble(name), replyOk) == Sniffed(name, Some([NEWLINE])) <==>
      1 <= |name| <= 247 && !IsHello(Preamble(name))
  {
    var b := Preamble(name);
    PreambleProxies(name);
    HelloDecodes(b);
    assert |b| > 1;
    if 1 <= |name| <= 247 {
      assert b[8 + |name|..] == [NEWLINE];
    }
  }

  /** In particular for every name without NUL bytes of 1 to 247 bytes. */
  lemma PreambleRoundTrip(name: Bytes, replyOk: bool)
    requires NulFree(name) && 1 <= |name| <= 247
    ensures Sniff(Preamble(name), replyOk) == Sniffed(name, Some([NEWLINE]))
  {
    NulFreeNeverDecodes(Preamble(name));
    HelloDecodes(Preamble(name));
    PreambleRoundTripIff(name, replyOk);
  }

  /** A name with NUL bytes can carry a ClientHello: 35 bytes of filler, three empty
      vectors and a server_name extension for any host of up to 197 bytes. The server
      then routes to that host, not to the name. */
  function Smuggler(host: Bytes): Bytes
    requires 0 < |host| < 65000
  {
    seq(35, _ => 65) + [0] + [0, 0] + [0] + Vec16(ExtensionsBytes(HostOnly(host)))
  }

  function HostOnly(host: Bytes): (xs: seq<Extension>)
    requires 0 < |host| < 65000
    ensures GoodExtensions(xs) && |ExtensionsBytes(xs)| == 9 + |host| && AllHosts(xs) == [host]
  {
    var names := [NameEntry(0, host)];
    assert names[1..] == [];
    assert NamesBytes(names) == [0] + Vec16(host);
    var xs := [ServerNames(names, [])];
    assert xs[1..] == [];
    assert Hosts(names) == [host];
    xs
  }

  function SmugglerHello(host: Bytes): Hello
    requires 0 < |host| <= 197
  {
    var filler: Bytes := seq(35, _ => 65);
    Hello(PROXY + [|Smuggler(host)| % 256] + filler, [], [], [], HostOnly(host), [NEWLINE])
  }

  lemma Regroup(p: Bytes, l: Bytes, f: Bytes, x: Bytes, y: Bytes, z: Bytes, e: Bytes, t: Bytes)
    ensures p + l + (f + x + y + z + e) + t == (p + l + f) + (x + (y + (z + (e + t))))
  {
  }

  lemma SmugglerBytes(host: Bytes)
    requires 0 < |host| <= 197
    ensures GoodHello(SmugglerHello(host)) && HelloBytes(SmugglerHello(host)) == Preamble(Smuggler(host))
  {
    var filler: Bytes := seq(35, _ => 65);
    assert Vec8([]) == [0] && Vec16([]) == [0, 0];
    var exts := Vec16(ExtensionsBytes(HostOnly(host)));
    Regroup(PROXY, [|Smuggler(host)| % 256], filler, [0], [0, 0], [0], exts, [NEWLINE]);
  }

  lemma NulNameMisroutes(host: Bytes, replyOk: bool)
    requires 0 < |host| <= 197 && NoFinalDot(host)
    ensures 1 <= |Smuggler(host)| <= 247
    ensures Sniff(Preamble(Smuggler(host)), replyOk).target == host != Smuggler(host)
  {
    SmugglerBytes(host);
    assert Announces(Preamble(Smuggler(host)), host);
    DecodeExact(Preamble(Smuggler(host)), host);
  }
}
