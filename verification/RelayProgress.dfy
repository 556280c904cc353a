/** The relay gets there: while neither side fails, a connection whose user has finished
    sending delivers everything, in a bounded number of steps and in whatever order the
    goroutines take them. */
module RelayProgress {
  import opened GoBytes
  import opened Framing
  import opened Relay
  import opened RelayRuns
  import opened Runs

  /** Neither side has failed, and the connect object can be read. */
  ghost predicate Healthy(s: State) {
    && Inv(s) && |s.connect| <= 1000 && s.connect in s.decodes
    && s.server != Closed(false) && s.client != Ended(false)
  }

  /** A step that does not fail: no error, and the frame's reads come whole. */
  predicate Advances(s: State, a: Step) {
    match a
    case ServerSniff(_, _) => true
    case ServerDirect => true
    case ServerPut(_) => true
    case ServerRead(_) => true
    case ServerEof => true
    case ClientReadLength(n) => n == 2
    case ClientReadPayload(n) => s.client.WantPayload? && n == s.client.n
    case ClientRead(_) => true
    case ClientWrite(_) => true
    case ClientEof => true
    case _ => false
  }

  function ServerWork(s: State): int {
    match s.server
    case Start => 4 * |s.sent| + 3 * (2 + |s.connect|) + 2
    case Relaying => 4 * (|s.sent| - s.taken) + 3 * |s.pending| + 1
    case Closed(_) => 0
  }

  function ClientWork(s: State): int {
    |s.held| + match s.client {
      case WantLength => 3
      case WantPayload(_) => 2
      case Copying => 1
      case Ended(_) => 0
    }
  }

  /** Every byte has up to four moves before it, and every loop its phases. */
  function Work(s: State): int {
    ServerWork(s) + 2 * (|s.line| - s.read) + ClientWork(s)
  }

  lemma WorkLeft(s: State)
    requires Inv(s)
    ensures Work(s) >= 0
  {
  }

  /** The line begins with the frame of the connect object. */
  lemma LineIsFrame(s: State)
    requires Inv(s) && |s.connect| <= 1000
    ensures |s.line| >= 2 ==> FromLe16(s.line[..2]) == |s.connect|
    ensures |s.line| >= 2 + |s.connect| ==> s.line[2..2 + |s.connect|] == s.connect
    ensures s.server == Closed(true) ==> |s.line| >= 2 + |s.connect|
  {
    if s.line != [] {
      var all := FrameBytes(s.connect) + s.sent[s.skipped..s.taken];
      assert s.line <= all;
      Le16RoundTrip(|s.connect|);
      if |s.line| >= 2 {
        SliceOfPrefix(s.line, all, 0, 2);
        assert s.line[..2] == Le16(|s.connect|);
      }
      if |s.line| >= 2 + |s.connect| {
        SliceOfPrefix(s.line, all, 2, 2 + |s.connect|);
      }
    }
  }

  lemma ServerAdvances(s: State, a: Step)
    requires Healthy(s) && Enabled(s, a) && Advances(s, a) && !ByClient(a)
    ensures var s' := Next(s, a);
      && s'.server != Closed(false) && s'.client == s.client && s'.read == s.read && s'.held == s.held
      && ServerWork(s') + 2 * |s'.line| < ServerWork(s) + 2 * |s.line|
  {
  }

  lemma ClientAdvances(s: State, a: Step)
    requires Healthy(s) && Enabled(s, a) && Advances(s, a) && ByClient(a)
    ensures var s' := Next(s, a);
      && s'.client != Ended(false) && s'.server == s.server && s'.line == s.line && ServerWork(s') == ServerWork(s)
      && ClientWork(s') - 2 * s'.read < ClientWork(s) - 2 * s.read
  {
    LineIsFrame(s);
  }

  lemma AdvanceWorks(s: State, a: Step)
    requires Healthy(s) && Enabled(s, a) && Advances(s, a)
    ensures Healthy(Next(s, a)) && Work(Next(s, a)) < Work(s) && Next(s, a).eof == s.eof
  {
    FollowsInv(s, a, Next(s, a));
    if ByClient(a) {
      ClientAdvances(s, a);
    } else {
      ServerAdvances(s, a);
    }
    FollowsSent(s, a, Next(s, a));
  }

  /** Something can advance until both loops have ended by end of file. */
  lemma AdvanceExists(s: State) returns (a: Step)
    requires Healthy(s) && s.eof
    requires !(s.server == Closed(true) && s.client == Ended(true))
    ensures Enabled(s, a) && Advances(s, a)
  {
    match s.server
    case Start => a := ServerDirect;
    case Relaying =>
      a := if s.pending != [] then ServerPut(|s.pending|)
           else if s.taken < |s.sent| then ServerRead(1)
           else ServerEof;
    case Closed(_) =>
      LineIsFrame(s);
      match s.client {
        case WantLength => a := ClientReadLength(2);
        case WantPayload(n) => a := ClientReadPayload(n);
        case Copying =>
          a := if s.held != [] then ClientWrite(1)
               else if s.read < |s.line| then ClientRead(1)
               else ClientEof;
        case Ended(_) => assert false;
      }
  }

  /** The runs leave nothing out: reads and writes may be cut anywhere, the frame's reads may
      come short, the user may send until it has finished, and either side may fail at any
      time before its end. */
  lemma EveryMovePossible(s: State, n: nat, replyOk: bool, data: Bytes)
    ensures s.server.Start? && n <= 1024 && n <= |s.sent| ==> Enabled(s, ServerSniff(n, replyOk))
    ensures s.server.Relaying? && 0 < n <= |s.pending| ==> Enabled(s, ServerPut(n))
    ensures s.server.Relaying? && s.pending == [] && 0 < n <= |s.sent| - s.taken ==> Enabled(s, ServerRead(n))
    ensures s.client.WantLength? && n <= 2 && n <= |s.line| - s.read ==> Enabled(s, ClientReadLength(n))
    ensures s.client.WantPayload? && n <= s.client.n && n <= |s.line| - s.read ==> Enabled(s, ClientReadPayload(n))
    ensures s.client.Copying? && s.held == [] && 0 < n <= |s.line| - s.read ==> Enabled(s, ClientRead(n))
    ensures s.client.Copying? && 0 < n <= |s.held| ==> Enabled(s, ClientWrite(n))
    ensures !s.eof ==> Enabled(s, UserSend(data)) && Enabled(s, UserClose)
    ensures !s.server.Closed? ==> Enabled(s, ServerFail)
    ensures !s.client.Ended? ==> Enabled(s, ClientFail)
  {
  }

  /** Healthy, and the user has finished sending. */
  ghost predicate Finishing(s: State) {
    Healthy(s) && s.eof
  }

  lemma FollowsWorks(s: State, a: Step, s': State)
    requires Finishing(s) && Follows(s, a, s') && Advances(s, a)
    ensures Finishing(s') && Work(s') < Work(s)
  {
    AdvanceWorks(s, a);
  }

  lemma AdvancingRun(states: seq<State>, steps: seq<Step>, k: nat, n: nat)
    requires Path(Follows, states, steps) && k <= n < |states| && Finishing(states[k])
    requires forall i :: k <= i < n ==> Advances(states[i], steps[i])
    ensures Finishing(states[n]) && Work(states[n]) + (n - k) <= Work(states[k])
  {
    forall i | k <= i < n && Finishing(states[i])
      ensures Finishing(states[i + 1]) && Work(states[i + 1]) < Work(states[i])
    {
      assert Follows(states[i], steps[i], states[i + 1]);
      FollowsWorks(states[i], steps[i], states[i + 1]);
    }
    Descends(states, Finishing, Work, k, n);
  }

  ghost predicate Stuck(s: State) {
    forall a :: Advances(s, a) ==> !Enabled(s, a)
  }

  lemma StuckIsDone(s: State)
    requires Finishing(s) && Stuck(s)
    ensures s.server == Closed(true) && s.client == Ended(true)
  {
    if !(s.server == Closed(true) && s.client == Ended(true)) {
      var a := AdvanceExists(s);
      assert false;
    }
  }

  lemma HealthyFits(connect: Bytes, decodes: iset<Bytes>, states: seq<State>, steps: seq<Step>, n: nat)
    requires Run(connect, decodes, states, steps) && n < |states| && Healthy(states[n])
    ensures FrameFits(connect, decodes)
  {
    RunInv(connect, decodes, states, steps, n);
  }

  /** From any healthy state of a run whose user has finished, steps that do not fail are
      bounded in number, in any order and with any cuts; and when no more can be taken the
      backend has received all the user sent but the recognised preamble. */
  lemma AdvancesDeliver(
    connect: Bytes, decodes: iset<Bytes>, states: seq<State>, steps: seq<Step>, k: nat, n: nat)
    requires Run(connect, decodes, states, steps) && k <= n < |states| && Finishing(states[k])
    requires forall i :: k <= i < n ==> Advances(states[i], steps[i])
    ensures n - k <= Work(states[k])
    ensures Stuck(states[n]) ==> FaithfulRun(states, steps, n) && states[n].delivered == Stream(states[n])
  {
    AdvancingRun(states, steps, k, n);
    WorkLeft(states[n]);
    HealthyFits(connect, decodes, states, steps, n);
    if Stuck(states[n]) {
      StuckIsDone(states[n]);
      CleanEndDeliversAll(connect, decodes, states, steps, n);
    }
  }
}
