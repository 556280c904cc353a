/** Names: service:instance contexts (pkg/muxtunnel.go:391-406, 893-895) and the keys of a
    service's tunnels (pkg/muxtunnelClientServiceGroup.go:76). */
module Naming {
  import opened GoBytes

  // ---- strings.Split ----

  function Split(s: Bytes, c: Byte): (parts: seq<Bytes>)
    ensures |parts| > 0
    decreases |s|
  {
    var i := IndexOf(s, c);
    if i == |s| then [s] else [s[..i]] + Split(s[i + 1..], c)
  }

  function Join(parts: seq<Bytes>, c: Byte): Bytes
    requires |parts| > 0
  {
    if |parts| == 1 then parts[0] else parts[0] + [c] + Join(parts[1..], c)
  }

  /** The parts are the separator-free pieces whose join is the string. */
  lemma {:induction false} SplitJoin(s: Bytes, c: Byte)
    ensures Join(Split(s, c), c) == s
    ensures forall p :: p in Split(s, c) ==> c !in p
    decreases |s|
  {
    var i := IndexOf(s, c);
    if i < |s| {
      SplitJoin(s[i + 1..], c);
      assert Split(s, c)[1..] == Split(s[i + 1..], c);
      assert s == s[..i] + [c] + s[i + 1..];
    } else {
      assert s == s[..i];
    }
  }

  // ---- service contexts ----

  /** DefaultUserID, "default@none". */
  const DEFAULT_USER: Bytes := [100, 101, 102, 97, 117, 108, 116, 64, 110, 111, 110, 101]

  lemma DefaultUserIsAscii()
    ensures DEFAULT_USER == Ascii("default@none")
  {
  }

  datatype Context = Context(user: Bytes, service: Bytes, instance: Bytes)

  /** parseServiceContext. */
  method ParseServiceContext(serviceName: Bytes, token: Bytes) returns (r: Context)
    ensures r == Parse(serviceName, token)
    ensures COLON !in r.service && COLON !in r.instance
    ensures r.service == serviceName[..IndexOf(serviceName, COLON)]
    ensures var i := IndexOf(serviceName, COLON);
      r.instance == if i == |serviceName| then [] else
                      var rest := serviceName[i + 1..]; rest[..IndexOf(rest, COLON)]
    ensures r.user == if COLON in token then token[..IndexOf(token, COLON)] else DEFAULT_USER
    ensures Label(r.service, r.instance) == serviceName <==> IsLabel(serviceName)
  {
    ParseColonFree(serviceName);
    InstanceBetweenColons(serviceName);
    LabelParseIff(serviceName);
    var instance: Bytes := [];
    var parts := Split(serviceName, COLON);
    if |parts| > 1 {
      instance := parts[1];
    }
    var service := parts[0];
    var user := DEFAULT_USER;
    parts := Split(token, COLON);
    if |parts| > 1 {
      user := parts[0];
    }
    r := Context(user, service, instance);
  }

  function ServiceOf(serviceName: Bytes): Bytes {
    Split(serviceName, COLON)[0]
  }

  function InstanceOf(serviceName: Bytes): Bytes {
    var parts := Split(serviceName, COLON);
    if |parts| > 1 then parts[1] else []
  }

  function UserOf(token: Bytes): Bytes {
    var parts := Split(token, COLON);
    if |parts| > 1 then parts[0] else DEFAULT_USER
  }

  function Parse(serviceName: Bytes, token: Bytes): Context {
    Context(UserOf(token), ServiceOf(serviceName), InstanceOf(serviceName))
  }

  /** The service name connectBackend sends. */
  function Label(service: Bytes, instance: Bytes): Bytes {
    if |instance| > 0 then service + [COLON] + instance else service
  }

  /** s has no colon, or a single one that is not its last byte. */
  predicate IsLabel(s: Bytes) {
    var i := IndexOf(s, COLON);
    i == |s| || (i + 1 < |s| && COLON !in s[i + 1..])
  }

  /** The instance is what stands between the first colon and the next, if any. */
  lemma InstanceBetweenColons(s: Bytes)
    ensures var i := IndexOf(s, COLON);
      InstanceOf(s) == if i == |s| then [] else var rest := s[i + 1..]; rest[..IndexOf(rest, COLON)]
  {
    var i := IndexOf(s, COLON);
    if i < |s| {
      var rest := s[i + 1..];
      assert Split(s, COLON)[1] == Split(rest, COLON)[0];
      assert rest[..|rest|] == rest;
    }
  }

  lemma ParseColonFree(serviceName: Bytes)
    ensures COLON !in ServiceOf(serviceName) && COLON !in InstanceOf(serviceName)
  {
    SplitJoin(serviceName, COLON);
    var parts := Split(serviceName, COLON);
    assert parts[0] in parts;
    assert |parts| > 1 ==> parts[1] in parts;
  }

  lemma SplitAt(a: Bytes, rest: Bytes, c: Byte)
    requires c !in a
    ensures Split(a + [c] + rest, c) == [a] + Split(rest, c)
  {
    var s := a + [c] + rest;
    assert s[..|a|] == a && s[|a| + 1..] == rest;
    IndexOfUnique(s, c, |a|);
  }

  lemma SplitNone(a: Bytes, c: Byte)
    requires c !in a
    ensures Split(a, c) == [a]
  {
  }

  /** Parsing a label gives its two names back. */
  lemma ParseLabel(service: Bytes, instance: Bytes)
    requires COLON !in service && COLON !in instance
    ensures ServiceOf(Label(service, instance)) == service
    ensures InstanceOf(Label(service, instance)) == instance
  {
    if instance == [] {
      SplitNone(service, COLON);
    } else {
      SplitAt(service, instance, COLON);
      SplitNone(instance, COLON);
    }
  }

  /** The label sent for a registration is the registered string exactly when that has no
      colon, or a single one that is not its last byte. */
  lemma LabelParseIff(s: Bytes)
    ensures Label(ServiceOf(s), InstanceOf(s)) == s <==> IsLabel(s)
  {
    var i := IndexOf(s, COLON);
    if i < |s| {
      CutAt(s, i);
      var rest := s[i + 1..];
      FirstPart(rest, COLON);
      LabelIs(s, s[..i], rest, Split(rest, COLON)[0]);
    }
  }

  lemma LabelIs(s: Bytes, a: Bytes, rest: Bytes, instance: Bytes)
    requires s == a + [COLON] + rest
    ensures Label(a, instance) == s <==> instance == rest && rest != []
  {
    if instance != [] && Label(a, instance) == s {
      assert s[|a| + 1..] == rest && Label(a, instance)[|a| + 1..] == instance;
    }
  }

  lemma FirstPart(s: Bytes, c: Byte)
    ensures Split(s, c)[0] == s <==> c !in s
  {
  }

  // ---- tunnel keys ----

  /** strconv's decimal digits. */
  function Digits(n: nat): (d: Bytes)
    ensures |d| > 0
    ensures forall i :: 0 <= i < |d| ==> 48 <= d[i] < 58
  {
    if n < 10 then [48 + n] else Digits(n / 10) + [48 + n % 10]
  }

  function Value(d: Bytes): int {
    if d == [] then 0 else 10 * Value(d[..|d| - 1]) + (d[|d| - 1] as int - 48)
  }

  lemma {:induction false} DigitsValue(n: nat)
    ensures Value(Digits(n)) == n
  {
    var d := Digits(n);
    if n >= 10 {
      DigitsValue(n / 10);
      assert d[..|d| - 1] == Digits(n / 10);
    } else {
      assert d[..0] == [];
    }
  }

  /** Nothing but the digits of n, without a leading zero, has that value. */
  lemma {:induction false} DigitsUnique(d: Bytes, n: nat)
    requires d != [] && forall i :: 0 <= i < |d| ==> '0' as int <= d[i] <= '9' as int
    ensures Value(d) == n && (d[0] != '0' as int || |d| == 1) <==> d == Digits(n)
  {
    DigitsValue(n);
    DigitsLead(n);
    if Value(d) == n && (d[0] != '0' as int || |d| == 1) {
      DigitsOfValue(d);
    }
  }

  lemma {:induction false} DigitsLead(n: nat)
    ensures Digits(n)[0] != '0' as int || |Digits(n)| == 1
    ensures n > 0 ==> Digits(n)[0] != '0' as int
  {
    if n >= 10 {
      DigitsLead(n / 10);
    }
  }

  lemma {:induction false} DigitsOfValue(d: Bytes)
    requires d != [] && forall i :: 0 <= i < |d| ==> '0' as int <= d[i] <= '9' as int
    requires d[0] != '0' as int || |d| == 1
    ensures Value(d) >= 0 && Digits(Value(d)) == d && (d[0] != '0' as int ==> Value(d) > 0)
  {
    var k := |d| - 1;
    if k == 0 {
      assert d[..0] == [];
    } else {
      DigitsOfValue(d[..k]);
      DigitsSnoc(Value(d[..k]), d[k] as int - 48);
      assert d == d[..k] + [d[k]];
    }
  }

  lemma DigitsSnoc(v: nat, c: nat)
    requires v > 0 && c < 10
    ensures Digits(10 * v + c) == Digits(v) + [48 + c]
  {
    assert (10 * v + c) / 10 == v && (10 * v + c) % 10 == c;
  }

  /** %d. */
  function Decimal(n: int): Bytes {
    if n < 0 then [DASH] + Digits(-n) else Digits(n)
  }

  /** fmt.Sprintf("%s-%d", protocol, port). */
  function Key(protocol: Bytes, port: int): Bytes {
    protocol + [DASH] + Decimal(port)
  }

  function Abs(n: int): nat {
    if n < 0 then -n else n
  }

  /** A key up to its last dash: a negative port leaves its sign there. */
  function Stem(protocol: Bytes, port: int): Bytes {
    if port < 0 then protocol + [DASH] else protocol
  }

  lemma LastDashAt(a: Bytes, x: Bytes)
    requires DASH !in x
    ensures var s := a + [DASH] + x;
      s[|a|] == DASH && forall i :: |a| < i < |s| ==> s[i] != DASH
  {
  }

  /** What follows the last dash of a string determines it, and so does what precedes. */
  lemma LastDash(a: Bytes, x: Bytes, b: Bytes, y: Bytes)
    requires DASH !in x && DASH !in y
    requires a + [DASH] + x == b + [DASH] + y
    ensures a == b && x == y
  {
    LastDashAt(a, x);
    LastDashAt(b, y);
    var s := a + [DASH] + x;
    assert |a| == |b|;
    assert a == s[..|a|] && b == (b + [DASH] + y)[..|b|];
    assert x == s[|a| + 1..] && y == (b + [DASH] + y)[|b| + 1..];
  }

  lemma KeyStem(p: Bytes, m: int)
    ensures Key(p, m) == Stem(p, m) + [DASH] + Digits(Abs(m))
    ensures DASH !in Digits(Abs(m))
  {
  }

  /** Two ports share a tunnel key exactly when their stems and magnitudes agree. */
  lemma KeyCollision(p: Bytes, m: int, q: Bytes, n: int)
    ensures Key(p, m) == Key(q, n) <==> Stem(p, m) == Stem(q, n) && Abs(m) == Abs(n)
  {
    KeyStem(p, m);
    KeyStem(q, n);
    if Key(p, m) == Key(q, n) {
      LastDash(Stem(p, m), Digits(Abs(m)), Stem(q, n), Digits(Abs(n)));
      DigitsValue(Abs(m));
      DigitsValue(Abs(n));
    }
  }

  /** So keys identify ports as long as no port is negative, for all protocol names... */
  lemma KeyInjective(p: Bytes, m: nat, q: Bytes, n: nat)
    requires Key(p, m) == Key(q, n)
    ensures p == q && m == n
  {
    KeyCollision(p, m, q, n);
  }

  /** ...and a negative port always collides with one of another protocol. */
  lemma NegativePortCollides(p: Bytes, m: int)
    requires m < 0
    ensures Key(p, m) == Key(p + [DASH], -m)
  {
  }
}
