/** Whole connections: what the backend has received, over every run of the relay. */
module RelayRuns {
  import opened GoBytes
  import opened Cryptobyte
  import opened Framing
  import opened TlsHello
  import opened FirstPacket
  import opened Relay
  import opened Runs

  // ---- the recognised preamble ----

  /** k bytes of a first packet are preamble: none of a ClientHello, the word and the name
      of a PROXY preamble, all of an answered CONNECT request, and none of anything else. */
  ghost predicate Strips(first: Bytes, replyOk: bool, k: nat) {
    if IsHello(first) then k == 0
    else if IsProxy(first) then exists name :: ProxyPacket(first, name) && k == |PROXY| + 1 + |name|
    else k == if IsConnect(first) && replyOk then |first| else 0
  }

  lemma LegStrips(first: Bytes, replyOk: bool)
    ensures Strips(first, replyOk, |first| - |Leg(first, replyOk)|)
  {
    HelloDecodes(first);
    ProxyDecodes(first);
    ConnectDecodes(first);
    if Decode(first) == [] && IsProxy(first) {
      ProxyExact(first, ProxyDecode(first).name);
      assert ProxyPacket(first, ProxyDecode(first).name);
    }
  }

  /** What the first n steps of a run make of the front of the user's stream: if they hold
      a first read, the preamble it found is skipped, and otherwise nothing is. */
  ghost predicate Recognised(s: State, steps: seq<Step>, n: nat)
    requires n <= |steps|
  {
    && (forall i :: 0 <= i < n && steps[i].ServerSniff? ==> FirstRead(s, steps[i].n, steps[i].replyOk))
    && (Unsniffed(steps, n) ==> s.skipped == 0)
    && (s.server.Start? ==> Unsniffed(steps, n))
  }

  predicate Unsniffed(steps: seq<Step>, n: nat)
    requires n <= |steps|
  {
    forall i :: 0 <= i < n ==> !steps[i].ServerSniff?
  }

  ghost predicate FirstRead(s: State, n: nat, replyOk: bool) {
    n <= 1024 && n <= |s.sent| && Strips(s.sent[..n], replyOk, s.skipped)
  }

  lemma SniffRecognised(s: State, a: Step, s': State)
    requires Follows(s, a, s') && a.ServerSniff?
    ensures FirstRead(s', a.n, a.replyOk) && !s'.server.Start?
  {
    LegStrips(s.sent[..a.n], a.replyOk);
  }

  /** After the first read nothing changes what has been skipped. */
  lemma FirstReadKept(s: State, a: Step, s': State, n: nat, replyOk: bool)
    requires Follows(s, a, s') && !s.server.Start? && FirstRead(s, n, replyOk)
    ensures FirstRead(s', n, replyOk)
  {
    assert s'.skipped == s.skipped && s.sent <= s'.sent;
    SliceOfPrefix(s.sent, s'.sent, 0, n);
    assert s.sent[..n] == s.sent[0..n] && s'.sent[..n] == s'.sent[0..n];
  }

  lemma UnsniffedKept(s: State, a: Step, s': State)
    requires Follows(s, a, s') && !a.ServerSniff? && s.skipped == 0
    ensures s'.skipped == 0
  {
  }

  lemma StartKept(s: State, a: Step, s': State)
    requires Follows(s, a, s') && s'.server.Start?
    ensures s.server.Start? && !a.ServerSniff?
  {
  }

  lemma FollowsRecognised(s: State, s': State, steps: seq<Step>, n: nat)
    requires n < |steps| && Follows(s, steps[n], s') && Recognised(s, steps, n)
    ensures Recognised(s', steps, n + 1)
  {
    forall i | 0 <= i < n + 1 && steps[i].ServerSniff? ensures FirstRead(s', steps[i].n, steps[i].replyOk) {
      if i == n {
        SniffRecognised(s, steps[n], s');
      } else {
        FirstReadKept(s, steps[n], s', steps[i].n, steps[i].replyOk);
      }
    }
    if Unsniffed(steps, n + 1) {
      UnsniffedKept(s, steps[n], s');
    }
    if s'.server.Start? {
      StartKept(s, steps[n], s');
    }
  }

  lemma InitRecognised(connect: Bytes, decodes: iset<Bytes>, steps: seq<Step>)
    ensures Recognised(Init(connect, decodes), steps, 0)
  {
  }

  lemma {:induction false} RunRecognised(
    connect: Bytes, decodes: iset<Bytes>, states: seq<State>, steps: seq<Step>, n: nat)
    requires Run(connect, decodes, states, steps) && n < |states|
    ensures Recognised(states[n], steps, n)
  {
    if n == 0 {
      InitRecognised(connect, decodes, steps);
    } else {
      RunRecognised(connect, decodes, states, steps, n - 1);
      assert Follows(states[n - 1], steps[n - 1], states[n]);
      FollowsRecognised(states[n - 1], states[n], steps, n - 1);
    }
  }

  // ---- the connect frame ----

  lemma LengthRead(s: State, portions: seq<Bytes>)
    requires s.client.WantLength? && s.read == 0 && Flat(portions) <= s.line
    ensures var r := ReadOnce(portions, 2);
      && Enabled(s, ClientReadLength(|r.data|))
      && (|r.data| == 2 ==> Flat(r.rest) <= s.line[2..])
      && Next(s, ClientReadLength(|r.data|)) ==
           s.(read := |r.data|,
              client := if |r.data| != 2 || FromLe16(r.data) > 1000 then Ended(false)
                        else WantPayload(FromLe16(r.data)))
  {
    ReadKeepsBytes(portions, 2);
    var r := ReadOnce(portions, 2);
    assert Flat(portions) == r.data + Flat(r.rest);
    assert s.line[0..|r.data|] == Flat(portions)[0..|r.data|] == r.data;
    if |r.data| == 2 {
      assert s.line[2..|Flat(portions)|] == Flat(portions)[2..] == Flat(r.rest);
    }
  }

  lemma PayloadRead(s: State, portions: seq<Bytes>, n: nat)
    requires s.client == WantPayload(n) && s.read == 2 <= |s.line| && Flat(portions) <= s.line[2..]
    ensures var q := ReadOnce(portions, n);
      && Enabled(s, ClientReadPayload(|q.data|))
      && Next(s, ClientReadPayload(|q.data|)) ==
           s.(read := 2 + |q.data|, client := if |q.data| == n && q.data in s.decodes then Copying else Ended(false))
  {
    ReadKeepsBytes(portions, n);
    var q := ReadOnce(portions, n);
    assert Flat(portions) == q.data + Flat(q.rest);
    assert s.line[2..2 + |q.data|] == s.line[2..][..|q.data|] == Flat(portions)[..|q.data|] == q.data;
  }

  /** The client after one read of its length field and, if that comes whole, one of the
      payload, when its stream arrives in portions. */
  function AfterFrame(s: State, portions: seq<Bytes>): State
    requires s.client.WantLength? && s.read == 0 && Flat(portions) <= s.line
  {
    LengthRead(s, portions);
    var r := ReadOnce(portions, 2);
    var s1 := Next(s, ClientReadLength(|r.data|));
    if !s1.client.WantPayload? then s1
    else
      PayloadRead(s1, r.rest, s1.client.n);
      Next(s1, ClientReadPayload(|ReadOnce(r.rest, s1.client.n).data|))
  }

  /** The two reading steps are readFrame and the deserialization after it, however the
      stream is cut: the client goes on to copy exactly when a frame was read and decodes,
      and has then read what readFrame consumed. */
  lemma ClientReadsFrame(s: State, portions: seq<Bytes>)
    requires s.client.WantLength? && s.read == 0 && Flat(portions) <= s.line
    ensures var s', f := AfterFrame(s, portions), Frame(portions);
      && (s'.client.Copying? <==> f.payload.Some? && f.payload.value in s.decodes)
      && s'.read + |Flat(f.rest)| == |Flat(portions)|
  {
    LengthRead(s, portions);
    ReadKeepsBytes(portions, 2);
    var r := ReadOnce(portions, 2);
    if |r.data| == 2 && FromLe16(r.data) <= 1000 {
      var s1 := Next(s, ClientReadLength(2));
      PayloadRead(s1, r.rest, FromLe16(r.data));
      ReadKeepsBytes(r.rest, FromLe16(r.data));
    }
  }

  // ---- the stream the user sees ----

  /** The user's stream minus the recognised preamble. */
  function Stream(s: State): Bytes
    requires s.skipped <= |s.sent|
  {
    s.sent[s.skipped..]
  }

  /** The backend has received a prefix of the stream. */
  ghost predicate Faithful(s: State) {
    s.skipped <= |s.sent| && s.delivered <= Stream(s)
  }

  /** What the user has sent, in the order of sending. */
  function Typed(steps: seq<Step>): Bytes {
    if steps == [] then []
    else
      var last := steps[|steps| - 1];
      Typed(steps[..|steps| - 1]) + if last.UserSend? then last.data else []
  }

  /** The user's stream is what its steps have sent, and ended when one of them ended it. */
  ghost predicate SentBy(s: State, steps: seq<Step>, n: nat)
    requires n <= |steps|
  {
    s.sent == Typed(steps[..n]) && (s.eof <==> exists i :: 0 <= i < n && steps[i].UserClose?)
  }

  lemma FollowsSent(s: State, a: Step, s': State)
    requires Follows(s, a, s')
    ensures s'.sent == s.sent + if a.UserSend? then a.data else []
    ensures s'.eof <==> s.eof || a.UserClose?
  {
  }

  lemma {:induction false} RunSent(
    connect: Bytes, decodes: iset<Bytes>, states: seq<State>, steps: seq<Step>, n: nat)
    requires Run(connect, decodes, states, steps) && n < |states|
    ensures SentBy(states[n], steps, n)
  {
    if n > 0 {
      RunSent(connect, decodes, states, steps, n - 1);
      assert Follows(states[n - 1], steps[n - 1], states[n]);
      FollowsSent(states[n - 1], steps[n - 1], states[n]);
      assert steps[..n][..n - 1] == steps[..n - 1];
    }
  }

  /** After n steps the backend has received a prefix of what the user has sent minus
      exactly the preamble the first read found. */
  ghost predicate FaithfulRun(states: seq<State>, steps: seq<Step>, n: nat) {
    && n < |states| && n <= |steps|
    && SentBy(states[n], steps, n) && Recognised(states[n], steps, n) && Faithful(states[n])
  }

  /** The frame's length field cannot make the client stop inside the connect object and
      take what it has read for one. */
  ghost predicate FrameFits(connect: Bytes, decodes: iset<Bytes>) {
    var n := |connect| % 65536;
    |connect| < 65536 || n > 1000 || connect[..n] !in decodes
  }

  lemma LineSplits(s: State, got: Bytes)
    requires Inv(s) && FrameFits(s.connect, s.decodes) && PastFrame(s, got)
    ensures |s.connect| <= 1000 && !s.server.Start? && 2 + FromLe16(s.line[..2]) == |FrameBytes(s.connect)|
    ensures got <= s.sent[s.skipped..s.taken]
  {
    var frame, stream := FrameBytes(s.connect), s.sent[s.skipped..s.taken];
    var n := |s.connect| % 65536;
    assert s.line <= frame + stream;
    SliceOfPrefix(s.line, frame + stream, 0, 2);
    assert s.line[..2] == Le16(n);
    Le16RoundTrip(n);
    SliceOfPrefix(s.line, frame + stream, 2, 2 + n);
    assert s.line[2..2 + n] == s.connect[..n];
    SliceOfPrefix(s.line, frame + stream, |frame|, s.read);
    assert got == stream[..s.read - |frame|];
  }

  lemma InvFaithful(s: State)
    requires Inv(s) && FrameFits(s.connect, s.decodes)
    ensures Faithful(s)
  {
    if s.delivered != [] {
      var rest :| PastFrame(s, s.delivered + rest);
      LineSplits(s, s.delivered + rest);
      assert s.sent[s.skipped..s.taken] <= Stream(s);
    }
  }

  /** Safety over all runs: exactly when no fragment of the connect object passes for a
      whole one, everything any run ever delivers is a prefix of the user's stream minus
      the recognised preamble; no byte of the frame leaks into it and none is consumed
      with the frame. */
  lemma FaithfulIffFrameFits(connect: Bytes, decodes: iset<Bytes>)
    ensures (forall states, steps, n: nat ::
               Run(connect, decodes, states, steps) && n < |states| ==> FaithfulRun(states, steps, n))
            <==> FrameFits(connect, decodes)
  {
    if FrameFits(connect, decodes) {
      forall states, steps, n: nat | Run(connect, decodes, states, steps) && n < |states|
        ensures FaithfulRun(states, steps, n)
      {
        RunFaithful(connect, decodes, states, steps, n);
      }
    } else {
      var states, steps := LeakingRun(connect, decodes);
      assert Run(connect, decodes, states, steps) && !FaithfulRun(states, steps, 6);
    }
  }

  lemma RunFaithful(connect: Bytes, decodes: iset<Bytes>, states: seq<State>, steps: seq<Step>, n: nat)
    requires Run(connect, decodes, states, steps) && n < |states| && FrameFits(connect, decodes)
    ensures FaithfulRun(states, steps, n)
  {
    RunInv(connect, decodes, states, steps, n);
    RunSent(connect, decodes, states, steps, n);
    RunRecognised(connect, decodes, states, steps, n);
    InvFaithful(states[n]);
  }

  /** A deserializer that takes no proper prefix of an object, as JSON's does, makes every
      run faithful, whatever the length; but a connect object of more than 1000 bytes
      lets nothing through at all. */
  lemma SelfDelimitingIsSafe(connect: Bytes, decodes: iset<Bytes>, states: seq<State>, steps: seq<Step>, n: nat)
    requires Run(connect, decodes, states, steps) && n < |states|
    requires forall k :: 0 <= k < |connect| ==> connect[..k] !in decodes
    ensures FaithfulRun(states, steps, n)
    ensures |connect| > 1000 ==> states[n].delivered == [] && states[n].client != Ended(true)
  {
    var s := states[n];
    RunFaithful(connect, decodes, states, steps, n);
    RunInv(connect, decodes, states, steps, n);
    if s.delivered != [] {
      var rest :| PastFrame(s, s.delivered + rest);
      LineSplits(s, s.delivered + rest);
    } else if s.client == Ended(true) {
      LineSplits(s, s.delivered);
    }
  }

  /** A connect object of 65536 bytes or more, its length small modulo 65536, of which a
      fragment decodes: its tail reaches the backend although the user has sent nothing. */
  lemma LeakingRun(connect: Bytes, decodes: iset<Bytes>) returns (states: seq<State>, steps: seq<Step>)
    requires !FrameFits(connect, decodes)
    ensures Run(connect, decodes, states, steps) && |states| == 7 && !Faithful(states[6])
  {
    forall i: nat | i < 6
      ensures Follows(Leak(connect, decodes, i), LeakStep(connect, i), Leak(connect, decodes, i + 1))
    {
      LeakFollows(connect, decodes, i);
    }
    states := seq(7, (i: nat) => Leak(connect, decodes, i));
    steps := seq(6, (i: nat) => LeakStep(connect, i));
    assert Leak(connect, decodes, 0) == Init(connect, decodes);
  }

  function LeakStep(connect: Bytes, i: nat): Step {
    if i == 0 then ServerDirect
    else if i == 1 then ServerPut(2 + |connect|)
    else if i == 2 then ClientReadLength(2)
    else if i == 3 then ClientReadPayload(|connect| % 65536)
    else if i == 4 then ClientRead(1)
    else ClientWrite(1)
  }

  function Leak(connect: Bytes, decodes: iset<Bytes>, i: nat): State
    requires |connect| >= 65536
  {
    var n, frame := |connect| % 65536, FrameBytes(connect);
    if i == 0 then Init(connect, decodes)
    else if i == 1 then State(connect, decodes, [], false, Relaying, 0, 0, frame, [], WantLength, 0, [], [])
    else if i == 2 then State(connect, decodes, [], false, Relaying, 0, 0, [], frame, WantLength, 0, [], [])
    else if i == 3 then State(connect, decodes, [], false, Relaying, 0, 0, [], frame, WantPayload(n), 2, [], [])
    else if i == 4 then State(connect, decodes, [], false, Relaying, 0, 0, [], frame, Copying, 2 + n, [], [])
    else if i == 5 then State(connect, decodes, [], false, Relaying, 0, 0, [], frame, Copying, 3 + n, [connect[n]], [])
    else State(connect, decodes, [], false, Relaying, 0, 0, [], frame, Copying, 3 + n, [], [connect[n]])
  }

  lemma LeakFollows(connect: Bytes, decodes: iset<Bytes>, i: nat)
    requires !FrameFits(connect, decodes) && i < 6
    ensures Follows(Leak(connect, decodes, i), LeakStep(connect, i), Leak(connect, decodes, i + 1))
  {
    var n, frame := |connect| % 65536, FrameBytes(connect);
    if i == 1 {
      assert [] + frame[..|frame|] == frame && frame[|frame|..] == [];
    } else if i == 2 {
      assert frame[0..2] == Le16(n);
      Le16RoundTrip(n);
    } else if i == 3 {
      assert frame[2..2 + n] == connect[..n];
    } else if i == 4 {
      assert frame[2 + n..3 + n] == [connect[n]];
    }
  }

  /** When both copying loops have ended by end of file, everything has been delivered. */
  lemma CleanEndDeliversAll(connect: Bytes, decodes: iset<Bytes>, states: seq<State>, steps: seq<Step>, n: nat)
    requires Run(connect, decodes, states, steps) && n < |states| && FrameFits(connect, decodes)
    requires states[n].server == Closed(true) && states[n].client == Ended(true)
    ensures var s := states[n];
      s.eof && FaithfulRun(states, steps, n) && s.delivered == Stream(s)
  {
    var s := states[n];
    RunInv(connect, decodes, states, steps, n);
    RunFaithful(connect, decodes, states, steps, n);
    LineSplits(s, s.delivered);
    var frame := FrameBytes(connect);
    assert s.delivered == s.line[|frame|..] == (frame + Stream(s))[|frame|..] == Stream(s);
  }

  /** The simple form of the whole pipeline: a queue, and what has come out of it. */
  datatype Fifo = Fifo(queued: Bytes, out: Bytes)

  function FifoOf(s: State): Fifo
    requires Faithful(s)
  {
    Fifo(Stream(s)[|s.delivered|..], s.delivered)
  }

  ghost predicate FifoStep(f: Fifo, a: Step, f': Fifo) {
    match a
    case UserSend(data) => f' == Fifo(f.queued + data, f.out)
    case ServerSniff(n, replyOk) =>
      && f.out == [] && n <= |f.queued|
      && exists k: nat :: Strips(f.queued[..n], replyOk, k) && k <= n && f' == Fifo(f.queued[k..], [])
    case ClientWrite(n) => n <= |f.queued| && f' == Fifo(f.queued[n..], f.out + f.queued[..n])
    case _ => f' == f
  }

  lemma Enqueue(s: State, s': State, data: Bytes)
    requires Faithful(s) && Faithful(s') && s' == s.(sent := s.sent + data)
    ensures FifoOf(s') == Fifo(FifoOf(s).queued + data, s.delivered)
  {
    assert Stream(s') == Stream(s) + data;
  }

  lemma Dequeue(stream: Bytes, out: Bytes, moved: Bytes)
    requires out + moved <= stream
    ensures var queued := stream[|out|..];
      moved == queued[..|moved|] && queued[|moved|..] == stream[|out + moved|..]
  {
  }

  lemma FifoStepOk(s: State, a: Step)
    requires Inv(s) && FrameFits(s.connect, s.decodes) && Enabled(s, a) && !s.server.Start?
    ensures Faithful(s) && Faithful(Next(s, a)) && FifoStep(FifoOf(s), a, FifoOf(Next(s, a)))
  {
    var s' := Next(s, a);
    FollowsInv(s, a, s');
    InvFaithful(s);
    InvFaithful(s');
    if a.UserSend? {
      Enqueue(s, s', a.data);
    } else if a.ClientWrite? {
      Dequeue(Stream(s), s.delivered, s.held[..a.n]);
    }
  }

  lemma StartIsEmpty(s: State)
    requires Inv(s) && s.server.Start?
    ensures s.delivered == [] && s.skipped == 0
  {
  }

  lemma FifoStartOk(s: State, a: Step)
    requires Inv(s) && FrameFits(s.connect, s.decodes) && Enabled(s, a) && s.server.Start?
    ensures Faithful(s) && Faithful(Next(s, a)) && FifoStep(FifoOf(s), a, FifoOf(Next(s, a)))
  {
    var s' := Next(s, a);
    FollowsInv(s, a, s');
    InvFaithful(s);
    InvFaithful(s');
    StartIsEmpty(s);
    assert FifoOf(s) == Fifo(s.sent, []);
    if a.ServerSniff? {
      LegStrips(s.sent[..a.n], a.replyOk);
      assert FifoOf(s') == Fifo(s.sent[s'.skipped..], []);
    } else if a.UserSend? {
      Enqueue(s, s', a.data);
    } else if a.ClientWrite? {
      assert false;
    } else {
      StartSteps(s, a);
    }
  }

  lemma StartSteps(s: State, a: Step)
    requires Inv(s) && Enabled(s, a) && s.server.Start? && !a.ServerSniff? && !a.UserSend?
    ensures Next(s, a).sent == s.sent && Next(s, a).skipped == 0 && Next(s, a).delivered == []
  {
  }

  /** Refinement over all runs, from the empty queue at the start: what the user sends is
      queued, the first read takes the recognised preamble off the front, what the client
      writes is taken from the front, and everything in between, of either relay, is
      invisible. */
  lemma RefinesFifo(connect: Bytes, decodes: iset<Bytes>, states: seq<State>, steps: seq<Step>, n: nat)
    requires Run(connect, decodes, states, steps) && n < |steps| && FrameFits(connect, decodes)
    ensures FaithfulRun(states, steps, n) && FaithfulRun(states, steps, n + 1)
    ensures FifoStep(FifoOf(states[n]), steps[n], FifoOf(states[n + 1]))
    ensures n == 0 ==> FifoOf(states[n]) == Fifo([], [])
  {
    RunInv(connect, decodes, states, steps, n);
    RunFaithful(connect, decodes, states, steps, n);
    RunFaithful(connect, decodes, states, steps, n + 1);
    assert Follows(states[n], steps[n], states[n + 1]);
    if states[n].server.Start? {
      FifoStartOk(states[n], steps[n]);
    } else {
      FifoStepOk(states[n], steps[n]);
    }
  }

  /** In particular, once a first read that begins with a PROXY preamble's word and name
      has been taken, of at most 256 bytes and not a ClientHello, the stream is what
      follows the name, newline and all, then and at any later time. */
  lemma PreambleStripped(
    connect: Bytes, decodes: iset<Bytes>, states: seq<State>, steps: seq<Step>, n: nat, i: nat, name: Bytes)
    requires Run(connect, decodes, states, steps) && i < n < |states| && steps[i].ServerSniff?
    requires var sent := states[n].sent;
      steps[i].n <= |sent| && !IsHello(sent[..steps[i].n]) && ProxyPacket(sent[..steps[i].n], name)
    ensures var s, preamble := states[n], PROXY + Vec8(name);
      s.skipped <= |s.sent| && |preamble| <= |s.sent| && Stream(s) == s.sent[|preamble|..]
  {
    RunRecognised(connect, decodes, states, steps, n);
    assert FirstRead(states[n], steps[i].n, steps[i].replyOk);
    ProxyDecodes(states[n].sent[..steps[i].n]);
  }
}
