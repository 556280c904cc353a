/** One user connection through server and client, user to backend: the connect frame, the
    saved first leg and the two copying loops (pkg/muxtunnel.go:685-717, 870-907 and
    pkg/muxtunnelClient.go:240-332), with arbitrary chunking and interleaving. */
module Relay {
  import opened GoBytes
  import opened Framing
  import opened TlsHello
  import opened FirstPacket
  import opened Runs

  /** Closed also closes the stream to the client; clean: by end of file, not by error. */
  datatype ServerPhase = Start | Relaying | Closed(clean: bool)

  datatype ClientPhase = WantLength | WantPayload(n: nat) | Copying | Ended(clean: bool)

  datatype State = State(
    connect: Bytes,       // the serialized connect object of this connection
    decodes: iset<Bytes>, // the payloads the client can deserialize
    sent: Bytes,          // what the user has sent so far
    eof: bool,            // the user has finished sending
    server: ServerPhase,
    taken: nat,           // how much of sent the server has read
    skipped: nat,         // how much of that it has stripped as a preamble
    pending: Bytes,       // read or produced by the server, not yet on the line
    line: Bytes,          // everything ever put on the stream to the client
    client: ClientPhase,
    read: nat,            // how much of line the client has read
    held: Bytes,          // read by the client's copying loop, not yet written
    delivered: Bytes)     // everything the backend has received

  datatype Step =
    | UserSend(data: Bytes)
    | UserClose
    | ServerSniff(n: nat, replyOk: bool)  // getSNITarget's read of n bytes, then connectBackend
    | ServerDirect                        // the instance is known: connectBackend at once
    | ServerPut(n: nat)
    | ServerRead(n: nat)
    | ServerEof
    | ServerFail
    | ClientReadLength(n: nat)
    | ClientReadPayload(n: nat)
    | ClientRead(n: nat)
    | ClientWrite(n: nat)
    | ClientEof
    | ClientFail

  function Init(connect: Bytes, decodes: iset<Bytes>): State {
    State(connect, decodes, [], false, Start, 0, 0, [], [], WantLength, 0, [], [])
  }

  /** What doProxy writes before it starts copying: the bytes getSNITarget hands back. */
  function Leg(first: Bytes, replyOk: bool): (leg: Bytes)
    ensures |leg| <= |first| && leg == first[|first| - |leg|..]
  {
    match Sniff(first, replyOk).leg
    case None => []
    case Some(l) => l
  }

  predicate Enabled(s: State, a: Step) {
    match a
    case UserSend(_) => !s.eof
    case UserClose => !s.eof
    case ServerSniff(n, _) => s.server.Start? && n <= 1024 && n <= |s.sent|
    case ServerDirect => s.server.Start?
    case ServerPut(n) => s.server.Relaying? && 0 < n <= |s.pending|
    case ServerRead(n) => s.server.Relaying? && s.pending == [] && n > 0 && s.taken + n <= |s.sent|
    case ServerEof => s.server.Relaying? && s.pending == [] && s.taken == |s.sent| && s.eof
    case ServerFail => !s.server.Closed?
    case ClientReadLength(n) => s.client.WantLength? && n <= 2 && s.read + n <= |s.line|
    case ClientReadPayload(n) => s.client.WantPayload? && n <= s.client.n && s.read + n <= |s.line|
    case ClientRead(n) => s.client.Copying? && s.held == [] && n > 0 && s.read + n <= |s.line|
    case ClientWrite(n) => s.client.Copying? && 0 < n <= |s.held|
    case ClientEof => s.client.Copying? && s.held == [] && s.read == |s.line| && s.server.Closed?
    case ClientFail => !s.client.Ended?
  }

  function Next(s: State, a: Step): State
    requires Enabled(s, a)
  {
    match a
    case UserSend(data) => s.(sent := s.sent + data)
    case UserClose => s.(eof := true)
    case ServerSniff(n, replyOk) =>
      var leg := Leg(s.sent[..n], replyOk);
      s.(server := Relaying, taken := n, skipped := n - |leg|, pending := FrameBytes(s.connect) + leg)
    case ServerDirect => s.(server := Relaying, taken := 0, skipped := 0, pending := FrameBytes(s.connect))
    case ServerPut(n) => s.(line := s.line + s.pending[..n], pending := s.pending[n..])
    case ServerRead(n) => s.(pending := s.sent[s.taken..s.taken + n], taken := s.taken + n)
    case ServerEof => s.(server := Closed(true))
    case ServerFail => s.(server := Closed(false), pending := [])
    case ClientReadLength(n) =>
      s.(read := s.read + n,
         client := if n != 2 then Ended(false) else
                   var l := FromLe16(s.line[s.read..s.read + 2]);
                   if l > 1000 then Ended(false) else WantPayload(l))
    case ClientReadPayload(n) =>
      s.(read := s.read + n,
         client := if n == s.client.n && s.line[s.read..s.read + n] in s.decodes then Copying else Ended(false))
    case ClientRead(n) => s.(held := s.line[s.read..s.read + n], read := s.read + n)
    case ClientWrite(n) => s.(delivered := s.delivered + s.held[..n], held := s.held[n..])
    case ClientEof => s.(client := Ended(true))
    case ClientFail => s.(client := Ended(false))
  }

  // ---- the invariant ----

  ghost predicate ServerOk(s: State) {
    && s.skipped <= s.taken <= |s.sent|
    && match s.server {
         case Start => s.line == [] && s.pending == [] && s.taken == 0
         case Relaying => s.line + s.pending == FrameBytes(s.connect) + s.sent[s.skipped..s.taken]
         case Closed(clean) =>
           && s.pending == []
           && s.line <= FrameBytes(s.connect) + s.sent[s.skipped..s.taken]
           && (clean ==> s.eof && s.taken == |s.sent| && s.line == FrameBytes(s.connect) + s.sent[s.skipped..])
       }
  }

  /** The client has read and deserialized a whole frame, and past it exactly got. */
  ghost predicate PastFrame(s: State, got: Bytes) {
    && |s.line| >= 2
    && var n := FromLe16(s.line[..2]);
       n <= 1000 && 2 + n <= s.read <= |s.line| && s.line[2..2 + n] in s.decodes && got == s.line[2 + n..s.read]
  }

  ghost predicate ClientOk(s: State) {
    && s.read <= |s.line|
    && match s.client {
         case WantLength => s.read == 0 && s.held == [] && s.delivered == []
         case WantPayload(n) =>
           s.read == 2 && n <= 1000 && n == FromLe16(s.line[..2]) && s.held == [] && s.delivered == []
         case Copying => PastFrame(s, s.delivered + s.held)
         case Ended(clean) =>
           && (clean ==> s.server.Closed? && s.read == |s.line| && PastFrame(s, s.delivered))
           && (s.delivered == [] || exists rest :: PastFrame(s, s.delivered + rest))
       }
  }

  ghost predicate Inv(s: State) {
    ServerOk(s) && ClientOk(s)
  }

  // ---- slices ----

  lemma SliceOfPrefix(a: Bytes, b: Bytes, i: nat, j: nat)
    requires a <= b && i <= j <= |a|
    ensures a[i..j] == b[i..j]
  {
  }

  lemma SliceMore(b: Bytes, i: nat, j: nat, k: nat)
    requires i <= j <= k <= |b|
    ensures b[i..k] == b[i..j] + b[j..k]
  {
  }

  /** Moving bytes across a cut. */
  lemma CutMoves(line: Bytes, pending: Bytes, n: nat)
    requires n <= |pending|
    ensures line + pending == line + pending[..n] + pending[n..]
  {
  }

  /** A line that ends where a slice of the stream ends goes on as the stream does. */
  lemma SliceAppends(line: Bytes, frame: Bytes, sent: Bytes, i: nat, j: nat, k: nat)
    requires i <= j <= k <= |sent| && line == frame + sent[i..j]
    ensures line + sent[j..k] == frame + sent[i..k]
  {
    SliceMore(sent, i, j, k);
    Reassociate(frame, sent[i..j], sent[j..k]);
  }

  lemma Reassociate(a: Bytes, b: Bytes, c: Bytes)
    ensures a + b + c == a + (b + c)
  {
  }

  // ---- the server's steps ----

  lemma SendOk(s: State, data: Bytes)
    requires ServerOk(s) && Enabled(s, UserSend(data))
    ensures ServerOk(Next(s, UserSend(data)))
  {
    SliceOfPrefix(s.sent, s.sent + data, s.skipped, s.taken);
  }

  lemma SniffOk(s: State, n: nat, replyOk: bool)
    requires ServerOk(s) && Enabled(s, ServerSniff(n, replyOk))
    ensures ServerOk(Next(s, ServerSniff(n, replyOk)))
  {
    var leg := Leg(s.sent[..n], replyOk);
    assert s.sent[..n][n - |leg|..] == s.sent[n - |leg|..n];
  }

  lemma PutOk(s: State, n: nat)
    requires ServerOk(s) && Enabled(s, ServerPut(n))
    ensures ServerOk(Next(s, ServerPut(n)))
  {
    CutMoves(s.line, s.pending, n);
  }

  lemma ReadOk(s: State, n: nat)
    requires ServerOk(s) && Enabled(s, ServerRead(n))
    ensures ServerOk(Next(s, ServerRead(n)))
  {
    assert s.line + s.pending == s.line;
    SliceAppends(s.line, FrameBytes(s.connect), s.sent, s.skipped, s.taken, s.taken + n);
  }

  lemma FailOk(s: State)
    requires ServerOk(s) && Enabled(s, ServerFail)
    ensures ServerOk(Next(s, ServerFail))
  {
  }

  lemma EofOk(s: State)
    requires ServerOk(s) && Enabled(s, ServerEof)
    ensures ServerOk(Next(s, ServerEof))
  {
  }

  predicate ByClient(a: Step) {
    a.ClientReadLength? || a.ClientReadPayload? || a.ClientRead? || a.ClientWrite? || a.ClientEof? || a.ClientFail?
  }

  lemma NextServerOk(s: State, a: Step)
    requires ServerOk(s) && Enabled(s, a)
    ensures ServerOk(Next(s, a))
  {
    if ByClient(a) {
      ClientStepKeepsServer(s, Next(s, a));
    } else {
      OwnStepOk(s, a);
    }
  }

  lemma OwnStepOk(s: State, a: Step)
    requires ServerOk(s) && Enabled(s, a) && !ByClient(a)
    ensures ServerOk(Next(s, a))
  {
    match a
    case UserSend(data) => SendOk(s, data);
    case ServerSniff(n, replyOk) => SniffOk(s, n, replyOk);
    case ServerDirect => DirectOk(s);
    case ServerPut(n) => PutOk(s, n);
    case ServerRead(n) => ReadOk(s, n);
    case ServerEof => EofOk(s);
    case ServerFail => FailOk(s);
    case UserClose =>
  }

  lemma DirectOk(s: State)
    requires ServerOk(s) && Enabled(s, ServerDirect)
    ensures ServerOk(Next(s, ServerDirect))
  {
  }

  lemma ClientStepKeepsServer(s: State, s': State)
    requires ServerOk(s)
    requires s' == s.(client := s'.client, read := s'.read, held := s'.held, delivered := s'.delivered)
    ensures ServerOk(s')
  {
  }

  /** The line only grows, and a closed one not even that. */
  lemma LineGrows(s: State, a: Step)
    requires Enabled(s, a)
    ensures s.line <= Next(s, a).line
    ensures s.server.Closed? ==> Next(s, a).server == s.server && Next(s, a).line == s.line
  {
  }

  /** What the client has read stays what it was as the line grows. */
  lemma PastFrameKept(s: State, s': State, got: Bytes)
    requires PastFrame(s, got) && s.line <= s'.line && s'.read == s.read && s'.decodes == s.decodes
    ensures PastFrame(s', got)
  {
    var n := FromLe16(s.line[..2]);
    SliceOfPrefix(s.line, s'.line, 0, 2);
    SliceOfPrefix(s.line, s'.line, 2, 2 + n);
    SliceOfPrefix(s.line, s'.line, 2 + n, s.read);
  }

  lemma ClientReadOk(s: State, n: nat)
    requires ClientOk(s) && Enabled(s, ClientRead(n))
    ensures ClientOk(Next(s, ClientRead(n)))
  {
    assert s.delivered + s.held == s.delivered;
    PastFrameReads(s, s.delivered, n, Next(s, ClientRead(n)));
  }

  lemma PastFrameReads(s: State, got: Bytes, n: nat, s': State)
    requires PastFrame(s, got) && s.read + n <= |s.line|
    requires s'.line == s.line && s'.decodes == s.decodes && s'.read == s.read + n
    ensures PastFrame(s', got + s.line[s.read..s.read + n])
  {
    SliceMore(s.line, 2 + FromLe16(s.line[..2]), s.read, s.read + n);
  }

  lemma ClientWriteOk(s: State, n: nat)
    requires ClientOk(s) && Enabled(s, ClientWrite(n))
    ensures ClientOk(Next(s, ClientWrite(n)))
  {
    CutMoves(s.delivered, s.held, n);
  }

  lemma ClientEofOk(s: State)
    requires ClientOk(s) && Enabled(s, ClientEof)
    ensures ClientOk(Next(s, ClientEof))
  {
    assert s.delivered + s.held == s.delivered;
    assert PastFrame(Next(s, ClientEof), s.delivered + s.held);
  }

  lemma ClientFailOk(s: State)
    requires ClientOk(s) && Enabled(s, ClientFail)
    ensures ClientOk(Next(s, ClientFail))
  {
    if s.client.Copying? {
      assert PastFrame(Next(s, ClientFail), s.delivered + s.held);
    }
  }

  lemma ClientLengthOk(s: State, n: nat)
    requires ClientOk(s) && Enabled(s, ClientReadLength(n))
    ensures ClientOk(Next(s, ClientReadLength(n)))
  {
  }

  lemma ClientPayloadOk(s: State, n: nat)
    requires ClientOk(s) && Enabled(s, ClientReadPayload(n))
    ensures ClientOk(Next(s, ClientReadPayload(n)))
  {
    assert s.line[2 + n..s.read + n] == [];
  }

  lemma NextClientOk(s: State, a: Step)
    requires ClientOk(s) && Enabled(s, a)
    ensures ClientOk(Next(s, a))
  {
    if ByClient(a) {
      ClientOwnStepOk(s, a);
    } else {
      LineGrows(s, a);
      OthersKeepClient(s, Next(s, a));
    }
  }

  lemma ClientOwnStepOk(s: State, a: Step)
    requires ClientOk(s) && Enabled(s, a) && ByClient(a)
    ensures ClientOk(Next(s, a))
  {
    match a
    case ClientReadLength(n) => ClientLengthOk(s, n);
    case ClientReadPayload(n) => ClientPayloadOk(s, n);
    case ClientRead(n) => ClientReadOk(s, n);
    case ClientWrite(n) => ClientWriteOk(s, n);
    case ClientEof => ClientEofOk(s);
    case ClientFail => ClientFailOk(s);
  }

  lemma OthersKeepClient(s: State, s': State)
    requires ClientOk(s) && s.line <= s'.line
    requires s'.client == s.client && s'.read == s.read && s'.held == s.held && s'.delivered == s.delivered
    requires s'.decodes == s.decodes
    requires s.server.Closed? ==> s'.server == s.server && s'.line == s.line
    ensures ClientOk(s')
  {
    match s.client
    case WantLength =>
    case WantPayload(n) => assert s'.line[..2] == s.line[..2];
    case Copying => PastFrameKept(s, s', s.delivered + s.held);
    case Ended(clean) =>
      if clean {
        PastFrameKept(s, s', s.delivered);
      }
      if s.delivered != [] {
        var rest :| PastFrame(s, s.delivered + rest);
        PastFrameKept(s, s', s.delivered + rest);
      }
  }

  ghost predicate Follows(s: State, a: Step, s': State) {
    Enabled(s, a) && s' == Next(s, a)
  }

  lemma FollowsInv(s: State, a: Step, s': State)
    requires Inv(s) && Follows(s, a, s')
    ensures Inv(s')
    ensures s'.connect == s.connect && s'.decodes == s.decodes
  {
    NextServerOk(s, a);
    NextClientOk(s, a);
    NextKeepsConnect(s, a);
  }

  lemma NextKeepsConnect(s: State, a: Step)
    requires Enabled(s, a)
    ensures Next(s, a).connect == s.connect && Next(s, a).decodes == s.decodes
  {
  }

  ghost predicate Run(connect: Bytes, decodes: iset<Bytes>, states: seq<State>, steps: seq<Step>) {
    Path(Follows, states, steps) && states[0] == Init(connect, decodes)
  }

  lemma {:induction false} RunInv(connect: Bytes, decodes: iset<Bytes>, states: seq<State>, steps: seq<Step>, n: nat)
    requires Run(connect, decodes, states, steps) && n < |states|
    ensures Inv(states[n]) && states[n].connect == connect && states[n].decodes == decodes
  {
    if n > 0 {
      RunInv(connect, decodes, states, steps, n - 1);
      assert Follows(states[n - 1], steps[n - 1], states[n]);
      FollowsInv(states[n - 1], steps[n - 1], states[n]);
    }
  }
}
