/** From the first packet of a user connection to the backend it reaches: pkg/muxtunnel.go
    601-683 and 886-907 over parseServiceContext, getSNITarget and the registry. */
module EndToEnd {
  import opened GoBytes
  import opened Naming
  import opened Registry
  import opened RegistryInvariant
  import opened RegistryRuns
  import opened Routing
  import opened Runs
  import Cryptobyte
  import FirstPacket
  import TlsHello

  /** Every registration's names come out of parseServiceContext. */
  ghost predicate NamesParsed(steps: seq<Step>) {
    forall i :: 0 <= i < |steps| && steps[i].Register? ==> FromContext(steps[i].r)
  }

  ghost predicate FromContext(r: Request) {
    exists name, token :: Parse(name, token) == Context(r.user, r.service, r.instance)
  }

  lemma ContextColonFree(r: Request)
    requires FromContext(r)
    ensures COLON !in r.service && COLON !in r.instance
  {
    var name, token :| Parse(name, token) == Context(r.user, r.service, r.instance);
    ParseColonFree(name);
  }

  ghost predicate NamesColonFree(s: State) {
    forall t :: t in s.sessions ==> COLON !in s.sessions[t].service && COLON !in s.sessions[t].instance
  }

  lemma StepColonFree(s: State, a: Step)
    requires WellFormed(s) && Enabled(s, a) && NamesColonFree(s)
    requires a.Register? ==> COLON !in a.r.service && COLON !in a.r.instance
    ensures NamesColonFree(Next(s, a))
  {
    var s' := Next(s, a);
    forall t | t in s'.sessions ensures COLON !in s'.sessions[t].service && COLON !in s'.sessions[t].instance {
      if t in s.sessions && !(a.Register? && t == a.r.sid) {
        assert s'.sessions[t].service == s.sessions[t].service && s'.sessions[t].instance == s.sessions[t].instance;
      }
    }
  }

  /** No name of a registered session ever holds a colon, guarded run or not. */
  lemma {:induction false} RunColonFree(
    users: set<Bytes>, range: set<int>, states: seq<State>, steps: seq<Step>, n: nat)
    requires Run(users, range, states, steps) && n < |states| && NamesParsed(steps)
    ensures NamesColonFree(states[n])
  {
    if n > 0 {
      RunColonFree(users, range, states, steps, n - 1);
      assert Follows(states[n - 1], steps[n - 1], states[n]);
      if steps[n - 1].Register? {
        ContextColonFree(steps[n - 1].r);
      }
      StepColonFree(states[n - 1], steps[n - 1]);
    }
  }

  /** A connection for target is given exactly the sessions registered for that instance to
      choose among, and the label the chosen backend receives parses to the service and
      instance its session registered with. */
  ghost predicate Reaches(s: State, user: Bytes, service: Bytes, target: Bytes)
    requires WellFormed(s)
  {
    var c := Candidates(s, user, service, target);
    && Routes(s, c, user, service, target)
    && (c != map[] ==> ServiceOf(Label(service, target)) == service && InstanceOf(Label(service, target)) == target)
  }

  /** In a guarded run every target does, recognised or known from the TLS handshake. */
  lemma TargetReachesInstance(
    users: set<Bytes>, range: set<int>, states: seq<State>, steps: seq<Step>, n: nat,
    user: Bytes, service: Bytes, target: Bytes)
    requires Run(users, range, states, steps) && 0 !in range && n < |states|
    requires Guarded(states, steps) && NamesParsed(steps)
    ensures WellFormed(states[n]) && Reaches(states[n], user, service, target)
  {
    var s := states[n];
    GuardedRunSafe(users, range, states, steps, n);
    InvWellFormed(s);
    RoutingExact(s, user, service, target);
    RunColonFree(users, range, states, steps, n);
    var c := Candidates(s, user, service, target);
    if addr :| addr in c {
      assert RegisteredFor(s, c[addr], user, service, target);
      ParseLabel(service, target);
    }
  }

  /** A connection that opens with a ClientHello reaches its host name's instance, with the
      whole packet. */
  lemma HelloReachesInstance(
    users: set<Bytes>, range: set<int>, states: seq<State>, steps: seq<Step>, n: nat,
    user: Bytes, service: Bytes, b: Bytes, host: Bytes, replyOk: bool)
    requires Run(users, range, states, steps) && 0 !in range && n < |states|
    requires Guarded(states, steps) && NamesParsed(steps)
    requires host != [] && TlsHello.Announces(b, host)
    ensures FirstPacket.Sniff(b, replyOk) == FirstPacket.Sniffed(host, Some(b))
    ensures WellFormed(states[n]) && Reaches(states[n], user, service, host)
  {
    FirstPacket.SniffHelloExact(b, replyOk, host);
    TargetReachesInstance(users, range, states, steps, n, user, service, host);
  }

  /** One that opens with a PROXY preamble, whatever follows it in the first packet, reaches
      the named instance, with all that follows the name. */
  lemma ProxyReachesInstance(
    users: set<Bytes>, range: set<int>, states: seq<State>, steps: seq<Step>, n: nat,
    user: Bytes, service: Bytes, b: Bytes, name: Bytes, rest: Bytes, replyOk: bool)
    requires Run(users, range, states, steps) && 0 !in range && n < |states|
    requires Guarded(states, steps) && NamesParsed(steps)
    requires !FirstPacket.IsHello(b) && |b| <= 256 && 0 < |name| < 256
    requires b == FirstPacket.PROXY + Cryptobyte.Vec8(name) + rest
    ensures FirstPacket.Sniff(b, replyOk) == FirstPacket.Sniffed(name, Some(rest))
    ensures WellFormed(states[n]) && Reaches(states[n], user, service, name)
  {
    FirstPacket.SniffProxyExact(b, replyOk, name, rest);
    TargetReachesInstance(users, range, states, steps, n, user, service, name);
  }

  /** In particular one that opens with the whole preamble of a NUL-free name. */
  lemma PreambleReachesInstance(
    users: set<Bytes>, range: set<int>, states: seq<State>, steps: seq<Step>, n: nat,
    user: Bytes, service: Bytes, name: Bytes, replyOk: bool)
    requires Run(users, range, states, steps) && 0 !in range && n < |states|
    requires Guarded(states, steps) && NamesParsed(steps)
    requires TlsHello.NulFree(name) && 1 <= |name| <= 247
    ensures FirstPacket.Sniff(FirstPacket.Preamble(name), replyOk) == FirstPacket.Sniffed(name, Some([NEWLINE]))
    ensures WellFormed(states[n]) && Reaches(states[n], user, service, name)
  {
    FirstPacket.PreambleRoundTrip(name, replyOk);
    TargetReachesInstance(users, range, states, steps, n, user, service, name);
  }

  /** A CONNECT target with a port in it never names an instance: no session can have
      registered for a name with a colon, so such a connection finds no backend. */
  lemma ConnectWithPortFindsNone(
    users: set<Bytes>, range: set<int>, states: seq<State>, steps: seq<Step>, n: nat,
    user: Bytes, service: Bytes, b: Bytes)
    requires Run(users, range, states, steps) && 0 !in range && n < |states|
    requires Guarded(states, steps) && NamesParsed(steps)
    requires FirstPacket.ConnectTarget(b).Some? && COLON in FirstPacket.ConnectTarget(b).value
    ensures WellFormed(states[n])
    ensures Candidates(states[n], user, service, FirstPacket.ConnectTarget(b).value) == map[]
  {
    var s, target := states[n], FirstPacket.ConnectTarget(b).value;
    GuardedRunSafe(users, range, states, steps, n);
    InvWellFormed(s);
    RoutingExact(s, user, service, target);
    RunColonFree(users, range, states, steps, n);
    var c := Candidates(s, user, service, target);
    assert forall addr :: addr !in c;
  }
}
