/** The ClientHello walker of pkg/muxtunnel.go:756-826 and the grammar it decides:
    section 4.1.2 of RFC 8446 with the server_name extension of section 3 of RFC 6066. */
module TlsHello {
  import opened GoBytes
  import opened Cryptobyte

  predicate EndsWithDot(n: Bytes) {
    n != [] && n[|n| - 1] == DOT
  }

  // ---- what the loops compute ----

  /** The inner loop over a server_name list; None is the early return of "". */
  function Names(list: Bytes, sn: Bytes): Option<Bytes>
    decreases |list|
  {
    if list == [] then Some(sn)
    else
      match ReadUint16LengthPrefixed(list[1..])
      case Short => None
      case Got(name, rest) =>
        if name == [] then None
        else if list[0] != 0 then Names(rest, sn)
        else if sn != [] || EndsWithDot(name) then None
        else Names(rest, name)
  }

  /** The body of a server_name extension. */
  function ServerName(data: Bytes, sn: Bytes): Option<Bytes> {
    match ReadUint16LengthPrefixed(data)
    case Short => None
    case Got(list, _) => if list == [] then None else Names(list, sn)
  }

  /** The outer loop over the extensions. */
  function Exts(exts: Bytes, sn: Bytes): Option<Bytes>
    decreases |exts|
  {
    if exts == [] then Some(sn)
    else if |exts| < 2 then None
    else
      match ReadUint16LengthPrefixed(exts[2..])
      case Short => None
      case Got(data, rest) =>
        if Uint16(exts[..2]) != 0 then Exts(rest, sn)
        else
          match ServerName(data, sn)
          case None => None
          case Some(sn') => Exts(rest, sn')
  }

  /** The bytes of the extension block, when the fields before it can be read. */
  function ExtensionBlock(b: Bytes): Option<Bytes> {
    match ReadBytes(b, 5 + 6 + 32) {
      case Short => None
      case Got(_, s1) =>
        match ReadUint8LengthPrefixed(s1) {
          case Short => None
          case Got(_, s2) =>
            match ReadUint16LengthPrefixed(s2) {
              case Short => None
              case Got(_, s3) =>
                match ReadUint8LengthPrefixed(s3) {
                  case Short => None
                  case Got(_, s4) =>
                    match ReadUint16LengthPrefixed(s4) {
                      case Short => None
                      case Got(exts, _) => Some(exts)
                    }
                }
            }
        }
    }
  }

  function Decode(b: Bytes): Bytes {
    match ExtensionBlock(b)
    case None => []
    case Some(exts) => match Exts(exts, []) case None => [] case Some(n) => n
  }

  /** The reads before the loops: pkg/muxtunnel.go:757-783. */
  method ReadExtensionBlock(b: Bytes) returns (r: Option<Bytes>)
    ensures r == ExtensionBlock(b)
  {
    var s := b;
    var got := ReadBytes(s, 5 + 6 + 32);
    if got.Short? { return None; }
    s := got.rest;
    got := ReadUint8LengthPrefixed(s);
    if got.Short? { return None; }
    s := got.rest;
    got := ReadUint16LengthPrefixed(s);
    if got.Short? { return None; }
    s := got.rest;
    got := ReadUint8LengthPrefixed(s);
    if got.Short? { return None; }
    s := got.rest;
    if s == [] { return None; }
    got := ReadUint16LengthPrefixed(s);
    if got.Short? { return None; }
    r := Some(got.data);
  }

  /** tryTLSDecode: two nested loops, each shrinking its cursor. */
  method TryTLSDecode(b: Bytes) returns (r: Bytes)
    ensures r == Decode(b)
  {
    var block := ReadExtensionBlock(b);
    if block.None? { return []; }
    var extensions := block.value;
    var servername: Bytes := [];
    while extensions != []
      invariant Exts(extensions, servername) == Exts(block.value, [])
      decreases |extensions|
    {
      if |extensions| < 2 { return []; }
      var extension := Uint16(extensions[..2]);
      var got := ReadUint16LengthPrefixed(extensions[2..]);
      if got.Short? { return []; }
      var extData := got.data;
      ghost var exts, sn := extensions, servername;
      extensions := got.rest;
      if extension == 0 {
        got := ReadUint16LengthPrefixed(extData);
        if got.Short? || got.data == [] { return []; }
        var nameList := got.data;
        while nameList != []
          invariant Names(nameList, servername) == ServerName(extData, sn)
          decreases |nameList|
        {
          var nameType := nameList[0];
          got := ReadUint16LengthPrefixed(nameList[1..]);
          if got.Short? || got.data == [] { return []; }
          nameList := got.rest;
          if nameType != 0 {
            continue;
          }
          if servername != [] { return []; }
          servername := got.data;
          if EndsWithDot(servername) { return []; }
        }
      }
    }
    r := servername;
  }

  // ---- the grammar ----

  datatype NameEntry = NameEntry(kind: Byte, name: Bytes)

  datatype Extension =
    | ServerNames(names: seq<NameEntry>, trailing: Bytes)
    | Other(kind: nat, data: Bytes)

  datatype Hello = Hello(
    head: Bytes, sessionId: Bytes, ciphers: Bytes, compression: Bytes,
    exts: seq<Extension>, tail: Bytes)

  ghost predicate GoodNames(l: seq<NameEntry>) {
    forall i :: 0 <= i < |l| ==> 0 < |l[i].name| < 65536
  }

  function NamesBytes(l: seq<NameEntry>): Bytes
    requires GoodNames(l)
  {
    if l == [] then [] else [l[0].kind] + Vec16(l[0].name) + NamesBytes(l[1..])
  }

  ghost predicate GoodExtension(x: Extension) {
    match x
    case ServerNames(names, trailing) =>
      && names != [] && GoodNames(names) && |NamesBytes(names)| < 65536
      && |Vec16(NamesBytes(names)) + trailing| < 65536
    case Other(kind, data) => 0 < kind < 65536 && |data| < 65536
  }

  function ExtensionKind(x: Extension): nat {
    if x.ServerNames? then 0 else x.kind
  }

  function ExtensionData(x: Extension): Bytes
    requires GoodExtension(x)
  {
    match x
    case ServerNames(names, trailing) => Vec16(NamesBytes(names)) + trailing
    case Other(_, data) => data
  }

  ghost predicate GoodExtensions(xs: seq<Extension>) {
    forall i :: 0 <= i < |xs| ==> GoodExtension(xs[i])
  }

  function ExtensionsBytes(xs: seq<Extension>): Bytes
    requires GoodExtensions(xs)
  {
    if xs == [] then []
    else U16(ExtensionKind(xs[0])) + Vec16(ExtensionData(xs[0])) + ExtensionsBytes(xs[1..])
  }

  ghost predicate GoodHello(h: Hello) {
    && |h.head| == 43 && |h.sessionId| < 256 && |h.ciphers| < 65536 && |h.compression| < 256
    && GoodExtensions(h.exts) && |ExtensionsBytes(h.exts)| < 65536
  }

  function HelloBytes(h: Hello): Bytes
    requires GoodHello(h)
  {
    h.head
    + (Vec8(h.sessionId) + (Vec16(h.ciphers) + (Vec8(h.compression) + (Vec16(ExtensionsBytes(h.exts)) + h.tail))))
  }

  /** The host_name entries, in order. */
  function Hosts(l: seq<NameEntry>): seq<Bytes> {
    if l == [] then [] else (if l[0].kind == 0 then [l[0].name] else []) + Hosts(l[1..])
  }

  function AllHosts(xs: seq<Extension>): seq<Bytes> {
    if xs == [] then [] else (if xs[0].ServerNames? then Hosts(xs[0].names) else []) + AllHosts(xs[1..])
  }

  ghost predicate NoFinalDot(n: Bytes) {
    n == [] || n[|n| - 1] != '.' as int
  }

  lemma FinalDot(n: Bytes)
    ensures NoFinalDot(n) <==> !EndsWithDot(n)
  {
  }

  /** b is a ClientHello with a single host name, n, that has no trailing dot. */
  ghost predicate Announces(b: Bytes, n: Bytes) {
    exists h: Hello :: GoodHello(h) && b == HelloBytes(h) && AllHosts(h.exts) == [n] && NoFinalDot(n)
  }

  /** The effect of a list of host names on servername. */
  function Fold(hosts: seq<Bytes>, sn: Bytes): Option<Bytes> {
    if hosts == [] then Some(sn)
    else if sn != [] || EndsWithDot(hosts[0]) then None
    else Fold(hosts[1..], hosts[0])
  }

  lemma {:induction false} FoldConcat(a: seq<Bytes>, b: seq<Bytes>, sn: Bytes)
    ensures Fold(a + b, sn) == match Fold(a, sn) case None => None case Some(x) => Fold(b, x)
  {
    if a == [] {
      assert a + b == b;
    } else {
      assert (a + b)[0] == a[0] && (a + b)[1..] == a[1..] + b;
      if !(sn != [] || EndsWithDot(a[0])) {
        FoldConcat(a[1..], b, a[0]);
      }
    }
  }

  // ---- the loops accept what the grammar writes ----

  lemma {:induction false} NamesAccept(l: seq<NameEntry>, sn: Bytes)
    requires GoodNames(l)
    ensures Names(NamesBytes(l), sn) == Fold(Hosts(l), sn)
  {
    if l != [] {
      var list := NamesBytes(l);
      assert list[1..] == Vec16(l[0].name) + NamesBytes(l[1..]);
      ReadVec16Exact(list[1..], l[0].name, NamesBytes(l[1..]));
      NamesAccept(l[1..], sn);
      NamesAccept(l[1..], l[0].name);
      FoldConcat(if l[0].kind == 0 then [l[0].name] else [], Hosts(l[1..]), sn);
    }
  }

  lemma {:induction false} ExtsAccept(xs: seq<Extension>, sn: Bytes)
    requires GoodExtensions(xs)
    ensures Exts(ExtensionsBytes(xs), sn) == Fold(AllHosts(xs), sn)
  {
    if xs != [] {
      var x, exts, rest := xs[0], ExtensionsBytes(xs), ExtensionsBytes(xs[1..]);
      assert exts[..2] == U16(ExtensionKind(x)) && exts[2..] == Vec16(ExtensionData(x)) + rest;
      ReadVec16Exact(exts[2..], ExtensionData(x), rest);
      U16Exact(exts[..2], ExtensionKind(x));
      if x.ServerNames? {
        ReadVec16Exact(ExtensionData(x), NamesBytes(x.names), x.trailing);
        assert ServerName(ExtensionData(x), sn) == Names(NamesBytes(x.names), sn);
        NamesAccept(x.names, sn);
        FoldConcat(Hosts(x.names), AllHosts(xs[1..]), sn);
        if Fold(Hosts(x.names), sn).Some? {
          ExtsAccept(xs[1..], Fold(Hosts(x.names), sn).value);
        }
      } else {
        ExtsAccept(xs[1..], sn);
        assert AllHosts(xs) == AllHosts(xs[1..]);
      }
    }
  }

  lemma HelloAccept(h: Hello)
    requires GoodHello(h)
    ensures ExtensionBlock(HelloBytes(h)) == Some(ExtensionsBytes(h.exts))
  {
    var s4 := Vec16(ExtensionsBytes(h.exts)) + h.tail;
    var s3 := Vec8(h.compression) + s4;
    var s2 := Vec16(h.ciphers) + s3;
    var s1 := Vec8(h.sessionId) + s2;
    ReadBytesExact(HelloBytes(h), 43, h.head, s1);
    ReadVec8Exact(s1, h.sessionId, s2);
    ReadVec16Exact(s2, h.ciphers, s3);
    ReadVec8Exact(s3, h.compression, s4);
    ReadVec16Exact(s4, ExtensionsBytes(h.exts), h.tail);
  }

  // ---- and nothing else ----

  lemma NamesBytesCons(e: NameEntry, l: seq<NameEntry>)
    requires GoodNames(l) && 0 < |e.name| < 65536
    ensures GoodNames([e] + l) && NamesBytes([e] + l) == [e.kind] + Vec16(e.name) + NamesBytes(l)
  {
  }

  lemma ExtensionsBytesCons(x: Extension, xs: seq<Extension>)
    requires GoodExtension(x) && GoodExtensions(xs)
    ensures GoodExtensions([x] + xs)
    ensures ExtensionsBytes([x] + xs) == U16(ExtensionKind(x)) + Vec16(ExtensionData(x)) + ExtensionsBytes(xs)
  {
  }

  lemma EntryBytes(list: Bytes, name: Bytes, rest: Bytes)
    requires list != [] && |name| < 65536 && list[1..] == Vec16(name) + rest
    ensures list == [list[0]] + Vec16(name) + rest
  {
  }

  lemma ExtensionBytes(exts: Bytes, data: Bytes, rest: Bytes)
    requires |exts| >= 2 && |data| < 65536 && exts[2..] == Vec16(data) + rest
    ensures exts == U16(Uint16(exts[..2])) + Vec16(data) + rest
  {
  }

  lemma {:induction false} NamesParse(list: Bytes, sn: Bytes) returns (l: seq<NameEntry>)
    requires Names(list, sn).Some?
    ensures GoodNames(l) && NamesBytes(l) == list
  {
    if list == [] {
      l := [];
    } else {
      var got := ReadUint16LengthPrefixed(list[1..]);
      var sn' := if list[0] == 0 then got.data else sn;
      assert Names(list, sn) == Names(got.rest, sn');
      var l' := NamesParse(got.rest, sn');
      var e := NameEntry(list[0], got.data);
      ReadVec16Exact(list[1..], e.name, got.rest);
      NamesBytesCons(e, l');
      EntryBytes(list, e.name, got.rest);
      l := [e] + l';
    }
  }

  lemma {:induction false} ExtsParse(exts: Bytes, sn: Bytes) returns (xs: seq<Extension>)
    requires Exts(exts, sn).Some?
    ensures GoodExtensions(xs) && ExtensionsBytes(xs) == exts
  {
    if exts == [] {
      xs := [];
    } else {
      var got := ReadUint16LengthPrefixed(exts[2..]);
      ReadVec16Exact(exts[2..], got.data, got.rest);
      ExtensionBytes(exts, got.data, got.rest);
      var sn' := if Uint16(exts[..2]) == 0 then ServerName(got.data, sn).value else sn;
      assert Exts(exts, sn) == Exts(got.rest, sn');
      var x := ExtensionParse(Uint16(exts[..2]), got.data, sn);
      var xs' := ExtsParse(got.rest, sn');
      ExtensionsBytesCons(x, xs');
      xs := [x] + xs';
    }
  }

  lemma ExtensionParse(kind: nat, data: Bytes, sn: Bytes) returns (x: Extension)
    requires kind < 65536 && |data| < 65536
    requires kind == 0 ==> ServerName(data, sn).Some?
    ensures GoodExtension(x) && ExtensionKind(x) == kind && ExtensionData(x) == data
  {
    if kind == 0 {
      var inner := ReadUint16LengthPrefixed(data);
      ReadVec16Exact(data, inner.data, inner.rest);
      var l := NamesParse(inner.data, sn);
      x := ServerNames(l, inner.rest);
    } else {
      x := Other(kind, data);
    }
  }

  lemma HelloParse(b: Bytes) returns (h: Hello)
    requires ExtensionBlock(b).Some? && Exts(ExtensionBlock(b).value, []).Some?
    ensures GoodHello(h) && HelloBytes(h) == b && ExtensionsBytes(h.exts) == ExtensionBlock(b).value
  {
    var g0 := ReadBytes(b, 43);
    var g1 := ReadUint8LengthPrefixed(g0.rest);
    var g2 := ReadUint16LengthPrefixed(g1.rest);
    var g3 := ReadUint8LengthPrefixed(g2.rest);
    var g4 := ReadUint16LengthPrefixed(g3.rest);
    ReadBytesExact(b, 43, g0.data, g0.rest);
    ReadVec8Exact(g0.rest, g1.data, g1.rest);
    ReadVec16Exact(g1.rest, g2.data, g2.rest);
    ReadVec8Exact(g2.rest, g3.data, g3.rest);
    ReadVec16Exact(g3.rest, g4.data, g4.rest);
    var xs := ExtsParse(g4.data, []);
    h := Hello(g0.data, g1.data, g2.data, g3.data, xs, g4.rest);
  }

  lemma {:induction false} HostsNonEmpty(l: seq<NameEntry>)
    requires GoodNames(l)
    ensures forall h :: h in Hosts(l) ==> h != []
  {
    if l != [] {
      HostsNonEmpty(l[1..]);
    }
  }

  lemma {:induction false} AllHostsNonEmpty(xs: seq<Extension>)
    requires GoodExtensions(xs)
    ensures forall h :: h in AllHosts(xs) ==> h != []
  {
    if xs != [] {
      assert GoodExtension(xs[0]);
      if xs[0].ServerNames? {
        HostsNonEmpty(xs[0].names);
      }
      AllHostsNonEmpty(xs[1..]);
    }
  }

  lemma FoldSingle(hosts: seq<Bytes>, n: Bytes)
    requires n != [] && forall h :: h in hosts ==> h != []
    ensures Fold(hosts, []) == Some(n) <==> hosts == [n] && NoFinalDot(n)
  {
    FinalDot(n);
    if hosts != [] && !EndsWithDot(hosts[0]) {
      assert hosts[0] in hosts;
      assert hosts == [hosts[0]] + hosts[1..];
    }
  }

  // ---- theorems ----

  /** The walker returns a non-empty name exactly when the packet announces that name. */
  lemma DecodeExact(b: Bytes, n: Bytes)
    requires n != []
    ensures Decode(b) == n <==> Announces(b, n)
  {
    if Decode(b) == n {
      var h := HelloParse(b);
      ExtsAccept(h.exts, []);
      AllHostsNonEmpty(h.exts);
      FoldSingle(AllHosts(h.exts), n);
    }
    if Announces(b, n) {
      var h: Hello :| GoodHello(h) && b == HelloBytes(h) && AllHosts(h.exts) == [n] && NoFinalDot(n);
      HelloAccept(h);
      ExtsAccept(h.exts, []);
      AllHostsNonEmpty(h.exts);
      FoldSingle(AllHosts(h.exts), n);
    }
  }

  /** No name with a trailing dot is ever returned, and a single host name without one is. */
  lemma DecodeFinalByte(b: Bytes)
    ensures Decode(b) != [] ==> Decode(b)[|Decode(b)| - 1] != 46
  {
    if Decode(b) != [] {
      DecodeExact(b, Decode(b));
      FinalDot(Decode(b));
    }
  }

  lemma HelloDecodesTo(h: Hello, n: Bytes)
    requires GoodHello(h) && AllHosts(h.exts) == [n] && n != [] && n[|n| - 1] != 46
    ensures Decode(HelloBytes(h)) == n
  {
    FinalDot(n);
    assert Announces(HelloBytes(h), n);
    DecodeExact(HelloBytes(h), n);
  }

  lemma AnnouncesExtended(b: Bytes, more: Bytes, n: Bytes)
    requires Announces(b, n)
    ensures Announces(b + more, n)
  {
    var h: Hello :| GoodHello(h) && b == HelloBytes(h) && AllHosts(h.exts) == [n] && NoFinalDot(n);
    HelloTail(h, more);
  }

  lemma HelloTail(h: Hello, more: Bytes)
    requires GoodHello(h)
    ensures HelloBytes(h.(tail := h.tail + more)) == HelloBytes(h) + more
  {
  }

  /** Bytes after the extension block do not matter, so a truncated first read yields the
      same name as the whole packet or none at all. */
  lemma PrefixDecode(b: Bytes, k: nat)
    requires k <= |b|
    ensures Decode(b[..k]) == [] || Decode(b[..k]) == Decode(b)
  {
    assert b == b[..k] + b[k..];
    DecodeExtended(b[..k], b[k..], b);
  }

  lemma DecodeExtended(a: Bytes, more: Bytes, b: Bytes)
    requires b == a + more
    ensures Decode(a) == [] || Decode(a) == Decode(b)
  {
    if Decode(a) != [] {
      DecodeExact(a, Decode(a));
      AnnouncesExtended(a, more, Decode(a));
      DecodeExact(b, Decode(a));
    }
  }

  /** A recognised name leaves room for the fixed fields around it: anything shorter than
      59 bytes falls through to the other decoders. */
  lemma DecodeSize(b: Bytes)
    ensures Decode(b) != [] ==> |b| >= 58 + |Decode(b)|
  {
    var n := Decode(b);
    if n != [] {
      DecodeExact(b, n);
      var h: Hello :| GoodHello(h) && b == HelloBytes(h) && AllHosts(h.exts) == [n] && NoFinalDot(n);
      var i := HostExtension(h.exts, n);
      HostExtensionSize(h.exts, i, n);
    }
  }

  /** Some server_name extension holds the host n. */
  lemma {:induction false} HostExtension(xs: seq<Extension>, n: Bytes) returns (i: nat)
    requires n in AllHosts(xs)
    ensures i < |xs| && xs[i].ServerNames? && n in Hosts(xs[i].names)
  {
    if xs[0].ServerNames? && n in Hosts(xs[0].names) {
      i := 0;
    } else {
      i := HostExtension(xs[1..], n);
      i := i + 1;
    }
  }

  lemma {:induction false} HostExtensionSize(xs: seq<Extension>, i: nat, n: Bytes)
    requires GoodExtensions(xs) && i < |xs| && xs[i].ServerNames? && n in Hosts(xs[i].names)
    ensures |ExtensionsBytes(xs)| >= 9 + |n|
  {
    if i == 0 {
      assert GoodExtension(xs[0]);
      HostSize(xs[0].names, n);
    } else {
      HostExtensionSize(xs[1..], i - 1, n);
    }
  }

  lemma {:induction false} HostSize(l: seq<NameEntry>, n: Bytes)
    requires GoodNames(l) && n in Hosts(l)
    ensures |NamesBytes(l)| >= 3 + |n|
  {
    if !(l[0].kind == 0 && l[0].name == n) {
      HostSize(l[1..], n);
    }
  }

  ghost predicate NulFree(b: Bytes) {
    0 !in b
  }

  /** The server_name extension is announced by two NUL bytes, so a packet without any is
      never taken for a ClientHello, whatever its length. */
  lemma NulFreeNeverDecodes(b: Bytes)
    requires NulFree(b)
    ensures Decode(b) == []
  {
    var n := Decode(b);
    if n != [] {
      DecodeExact(b, n);
      var h: Hello :| GoodHello(h) && b == HelloBytes(h) && AllHosts(h.exts) == [n] && NoFinalDot(n);
      HelloHasNul(h, n);
    }
  }

  lemma HelloHasNul(h: Hello, n: Bytes)
    requires GoodHello(h) && n in AllHosts(h.exts)
    ensures 0 in HelloBytes(h)
  {
    var i := HostExtension(h.exts, n);
    HostExtensionNul(h.exts, i);
    assert 0 in Vec16(ExtensionsBytes(h.exts)) + h.tail;
  }

  lemma {:induction false} HostExtensionNul(xs: seq<Extension>, i: nat)
    requires GoodExtensions(xs) && i < |xs| && xs[i].ServerNames?
    ensures 0 in ExtensionsBytes(xs)
  {
    if i == 0 {
      assert ExtensionsBytes(xs)[0] == 0;
    } else {
      HostExtensionNul(xs[1..], i - 1);
    }
  }
}
