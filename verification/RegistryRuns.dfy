/** Whole runs of the registry: safety, leases and draining. */
module RegistryRuns {
  import opened GoBytes
  import opened Pool
  import opened Registry
  import opened RegistryInvariant
  import opened Runs

  ghost predicate Follows(s: State, a: Step, s': State) {
    WellFormed(s) && Enabled(s, a) && s' == Next(s, a)
  }

  ghost predicate Run(users: set<Bytes>, range: set<int>, states: seq<State>, steps: seq<Step>) {
    Path(Follows, states, steps) && states[0] == Init(users, range)
  }

  /** Every registration of the run is admissible. */
  ghost predicate Guarded(states: seq<State>, steps: seq<Step>) {
    && |states| == |steps| + 1
    && forall i :: 0 <= i < |steps| ==> GuardedStep(states[i], steps[i])
  }

  ghost predicate GuardedStep(s: State, a: Step) {
    WellFormed(s) && (a.Register? ==> Admissible(s, a.r))
  }

  lemma RegisterWellFormed(s: State, r: Request)
    requires WellFormed(s) && CanRegister(s, r)
    ensures WellFormed(AfterRegister(s, r))
  {
  }

  /** No step leads to a dangling index, guarded or not. */
  lemma NextWellFormed(s: State, a: Step)
    requires WellFormed(s) && Enabled(s, a)
    ensures WellFormed(Next(s, a))
  {
    if a.Register? {
      RegisterWellFormed(s, a.r);
    }
  }

  /** Every state of a run is good exactly when every registration in it was admissible:
      the guard is what safety over all interleavings needs, and no more. */
  lemma RunSafeIff(users: set<Bytes>, range: set<int>, states: seq<State>, steps: seq<Step>)
    requires Run(users, range, states, steps) && 0 !in range
    ensures (forall n :: 0 <= n < |states| ==> Inv(states[n])) <==>
            Guarded(states, steps)
  {
    if Guarded(states, steps) {
      forall n | 0 <= n < |states| ensures Inv(states[n]) {
        GuardedRunSafe(users, range, states, steps, n);
      }
    }
    if forall n :: 0 <= n < |states| ==> Inv(states[n]) {
      forall i | 0 <= i < |steps| ensures GuardedStep(states[i], steps[i]) {
        assert Follows(states[i], steps[i], states[i + 1]) && Inv(states[i + 1]);
        NextKeepsInvIff(states[i], steps[i]);
      }
    }
  }

  lemma {:induction false} GuardedRunSafe(
    users: set<Bytes>, range: set<int>, states: seq<State>, steps: seq<Step>, n: nat)
    requires Run(users, range, states, steps) && 0 !in range && n < |states|
    requires Guarded(states, steps)
    ensures Inv(states[n])
  {
    if n == 0 {
      InitInv(users, range);
    } else {
      GuardedRunSafe(users, range, states, steps, n - 1);
      assert Follows(states[n - 1], steps[n - 1], states[n]) && GuardedStep(states[n - 1], steps[n - 1]);
      NextKeepsInvIff(states[n - 1], steps[n - 1]);
    }
  }

  /** In every run, guarded or not, the users with an entry and the ports under
      management never change. */
  lemma {:induction false} RunKeepsFrame(
    users: set<Bytes>, range: set<int>, states: seq<State>, steps: seq<Step>, n: nat)
    requires Run(users, range, states, steps) && n < |states|
    ensures states[n].frontendMap.Keys == users
    ensures states[n].pool.free + states[n].pool.leased == range && states[n].pool.free !! states[n].pool.leased
  {
    if n > 0 {
      RunKeepsFrame(users, range, states, steps, n - 1);
      assert Follows(states[n - 1], steps[n - 1], states[n]);
      NextKeepsFrame(states[n - 1], steps[n - 1]);
    }
  }

  lemma NextKeepsFrame(s: State, a: Step)
    requires WellFormed(s) && Enabled(s, a) && s.pool.free !! s.pool.leased
    ensures var s' := Next(s, a);
      && s'.frontendMap.Keys == s.frontendMap.Keys
      && s'.pool.free + s'.pool.leased == s.pool.free + s.pool.leased && s'.pool.free !! s'.pool.leased
  {
    if a.Register? && Port(s, a.r).Some? {
      RegisterPool(s, a.r);
      var s' := AfterRegister(s, a.r);
      assert s'.frontendMap.Keys == s.frontendMap.Keys;
    }
  }

  lemma RegisterPool(s: State, r: Request)
    requires WellFormed(s) && CanRegister(s, r) && Port(s, r).Some?
    ensures var got := AfterGet(s.pool, Wanted(s, r), r.pick);
      AfterRegister(s, r).pool == if Enrolls(s, r) then got else AfterReturn(got, Port(s, r).value)
  {
  }

  // ---- leases ----

  /** The pool never hands out a port some acceptor still holds, and a registration that
      fails to listen leaves everything exactly as it was. */
  lemma LeaseSafety(users: set<Bytes>, range: set<int>, states: seq<State>, steps: seq<Step>, i: nat)
    requires Run(users, range, states, steps) && 0 !in range && i < |steps| && steps[i].Register?
    requires Guarded(states, steps)
    ensures var s, r := states[i], steps[i].r;
      && WellFormed(s)
      && (HandsOut(s.pool, Wanted(s, r), r.pick).Some? ==>
            forall k :: !Holds(s, k, HandsOut(s.pool, Wanted(s, r), r.pick).value))
      && (!Enrolls(s, r) ==> states[i + 1] == s)
  {
    var s, r := states[i], steps[i].r;
    GuardedRunSafe(users, range, states, steps, i);
    assert Follows(s, steps[i], states[i + 1]) && GuardedStep(s, steps[i]);
    if Live(s, r.user, r.service) {
      ReuseShape(s, r);
      var fe := s.frontendMap[r.user][r.service];
      assert FrontendOk(s, fe);
    } else if !r.listens {
      FailedListenRestores(s, r);
    }
  }

  // ---- draining ----

  function Phased(s: State, ph: Phase): set<SessionId> {
    set t | t in s.sessions && s.sessions[t].phase == ph
  }

  function Acceptors(s: State): set<int> {
    set i | 0 <= i < |s.frontends| && s.frontends[i].accepting
  }

  /** How many steps the goroutines of s still have to take. */
  function Outstanding(s: State): nat {
    2 * |Phased(s, Responding)| + |Phased(s, Waiting)| + |Acceptors(s)|
  }

  /** The steps left once the service is closing, arrivals have stopped and no response
      fails. */
  predicate Drains(a: Step) {
    a.ResponseSent? || a.Deregister? || a.AcceptorExit?
  }

  /** No goroutine can move. */
  ghost predicate Quiescent(s: State)
    requires WellFormed(s)
  {
    forall a :: Drains(a) ==> !Enabled(s, a)
  }

  lemma PhaseStepCounts(s: State, sid: SessionId)
    requires sid in s.sessions && s.sessions[sid].phase == Responding
    ensures Outstanding(WithPhase(s, sid, Waiting)) == Outstanding(s) - 1
    ensures Phased(WithPhase(s, sid, Waiting), Gone) == Phased(s, Gone)
  {
    var s' := WithPhase(s, sid, Waiting);
    assert Phased(s', Responding) == Phased(s, Responding) - {sid};
    assert Phased(s', Waiting) == Phased(s, Waiting) + {sid};
    assert Acceptors(s') == Acceptors(s);
    assert Phased(s', Gone) == Phased(s, Gone);
  }

  lemma DeregisterCounts(s: State, sid: SessionId)
    requires WellFormed(s) && sid in s.sessions && s.sessions[sid].phase == Waiting
    ensures Outstanding(AfterDeregister(s, sid)) == Outstanding(s) - 1
    ensures Phased(AfterDeregister(s, sid), Gone) == Phased(s, Gone)
  {
    var s' := AfterDeregister(s, sid);
    assert s'.sessions == s.sessions - {sid};
    assert Phased(s', Responding) == Phased(s, Responding);
    assert Phased(s', Waiting) == Phased(s, Waiting) - {sid};
    assert Phased(s', Gone) == Phased(s, Gone);
    assert Acceptors(s') == Acceptors(s);
  }

  lemma ExitCounts(s: State, fe: nat)
    requires fe < |s.frontends| && s.frontends[fe].accepting
    ensures Outstanding(AfterAcceptorExit(s, fe)) == Outstanding(s) - 1
    ensures Phased(AfterAcceptorExit(s, fe), Gone) == Phased(s, Gone)
  {
    var s' := AfterAcceptorExit(s, fe);
    assert Phased(s', Responding) == Phased(s, Responding) && Phased(s', Waiting) == Phased(s, Waiting);
    assert Phased(s', Gone) == Phased(s, Gone);
    assert Acceptors(s') == Acceptors(s) - {fe};
  }

  lemma DrainStepCounts(s: State, a: Step)
    requires WellFormed(s) && Enabled(s, a) && Drains(a)
    ensures Outstanding(Next(s, a)) == Outstanding(s) - 1
    ensures Phased(Next(s, a), Gone) == Phased(s, Gone)
  {
    match a
    case ResponseSent(sid) => PhaseStepCounts(s, sid);
    case Deregister(sid) => DeregisterCounts(s, sid);
    case AcceptorExit(fe) => ExitCounts(s, fe);
  }

  /** Each drain step takes exactly one off what is outstanding, so a drain is over after
      at most Outstanding(states[0]) steps, whatever the interleaving. */
  lemma {:induction false} DrainCounts(states: seq<State>, steps: seq<Step>, n: nat)
    requires Path(Follows, states, steps) && n < |states|
    requires forall i :: 0 <= i < |steps| ==> Drains(steps[i])
    ensures Outstanding(states[n]) + n == Outstanding(states[0])
    ensures Phased(states[n], Gone) == Phased(states[0], Gone)
  {
    if n > 0 {
      DrainCounts(states, steps, n - 1);
      assert Follows(states[n - 1], steps[n - 1], states[n]);
      DrainStepCounts(states[n - 1], steps[n - 1]);
    }
  }

  /** A drain never gets stuck while something is outstanding. */
  lemma DrainProgress(s: State) returns (a: Step)
    requires Inv(s) && WellFormed(s) && Phased(s, Gone) == {} && Outstanding(s) > 0
    ensures Drains(a) && Enabled(s, a)
  {
    if t :| t in Phased(s, Responding) {
      a := ResponseSent(t);
    } else if t :| t in Phased(s, Waiting) {
      a := Deregister(t);
    } else {
      assert Phased(s, Responding) == {} && Phased(s, Waiting) == {};
      assert Acceptors(s) != {};
      var i :| i in Acceptors(s);
      NoSessionsNoListeners(s);
      a := AcceptorExit(i);
    }
  }

  lemma NoSessionsNoListeners(s: State)
    requires Inv(s)
    requires Phased(s, Responding) == {} && Phased(s, Waiting) == {} && Phased(s, Gone) == {}
    ensures s.sessions == map[]
    ensures forall i :: 0 <= i < |s.frontends| ==> !s.frontends[i].listening
  {
    assert forall t :: t in s.sessions ==> t in Phased(s, s.sessions[t].phase);
    assert s.sessions.Keys == {};
    forall i | 0 <= i < |s.frontends| ensures !s.frontends[i].listening {
      assert FrontendOk(s, i);
      var b := s.frontends[i].backends;
      if b != map[] {
        var inst :| inst in b;
        var addr :| addr in b[inst];
        assert InSlot(s.frontends[i], inst, addr, b[inst][addr]);
        assert false;
      }
    }
  }

  /** Everything a new server has: all ports free, all service maps empty, nothing open. */
  ghost predicate Pristine(s: State, users: set<Bytes>, range: set<int>) {
    && s.pool == Init(users, range).pool
    && s.frontendMap == Init(users, range).frontendMap
    && s.sessions == map[]
    && forall i :: 0 <= i < |s.frontends| ==> !s.frontends[i].listening && !s.frontends[i].accepting
  }

  /** When nothing can move any more, the server is as new exactly if no session was left
      behind by a failed response. */
  lemma QuiescentPristineIff(s: State, users: set<Bytes>, range: set<int>)
    requires Inv(s) && WellFormed(s) && Quiescent(s)
    requires s.frontendMap.Keys == users && s.pool.free + s.pool.leased == range
    ensures Pristine(s, users, range) <==> Phased(s, Gone) == {}
    ensures forall t :: t in s.sessions ==>
      s.sessions[t].phase == Gone && s.frontends[s.sessions[t].frontend].listening
  {
    forall t | t in s.sessions
      ensures s.sessions[t].phase == Gone && s.frontends[s.sessions[t].frontend].listening
    {
      assert !Enabled(s, ResponseSent(t)) && !Enabled(s, Deregister(t));
      assert SessionOk(s, t) && FrontendOk(s, s.sessions[t].frontend);
    }
    if Phased(s, Gone) == {} {
      assert Phased(s, Responding) == {} && Phased(s, Waiting) == {};
      NoSessionsNoListeners(s);
      EmptyIsPristine(s, users, range);
    }
  }

  lemma EmptyIsPristine(s: State, users: set<Bytes>, range: set<int>)
    requires Inv(s) && WellFormed(s) && Quiescent(s) && s.sessions == map[]
    requires forall i :: 0 <= i < |s.frontends| ==> !s.frontends[i].listening
    requires s.frontendMap.Keys == users && s.pool.free + s.pool.leased == range
    ensures Pristine(s, users, range)
  {
    forall i | 0 <= i < |s.frontends| ensures !s.frontends[i].accepting {
      assert !Enabled(s, AcceptorExit(i));
    }
    assert forall p :: p in s.pool.leased ==> exists i :: Holds(s, i, p);
    assert s.pool.leased == {};
    forall u | u in s.frontendMap ensures s.frontendMap[u] == map[] {
      if v :| v in s.frontendMap[u] {
        assert Live(s, u, v);
        assert FrontendOk(s, s.frontendMap[u][v]);
        assert Mapped(s, s.frontendMap[u][v]);
        assert false;
      }
    }
  }

  /** A guarded run without failed responses that ends with a drain: once Outstanding
      steps of it have been taken, the server is as new. */
  lemma DrainTheorem(users: set<Bytes>, range: set<int>, states: seq<State>, steps: seq<Step>, k: nat)
    requires Run(users, range, states, steps) && 0 !in range && k < |states|
    requires Guarded(states, steps) && forall i :: 0 <= i < |steps| ==> !steps[i].ResponseFailed?
    requires forall i :: k <= i < |steps| ==> Drains(steps[i])
    ensures |steps| - k <= Outstanding(states[k])
    ensures |steps| - k == Outstanding(states[k]) <==> Pristine(states[|steps|], users, range)
  {
    var last := states[|steps|];
    GuardedRunSafe(users, range, states, steps, |steps|);
    RunKeepsFrame(users, range, states, steps, |steps|);
    InvWellFormed(last);
    NoFailuresNoGone(users, range, states, steps, |steps|);
    var states', steps' := states[k..], steps[k..];
    Suffix(Follows, states, steps, k);
    DrainCounts(states', steps', |steps'|);
    assert Outstanding(last) + (|steps| - k) == Outstanding(states[k]);
    if Outstanding(last) == 0 {
      NothingLeftQuiescent(last);
      QuiescentPristineIff(last, users, range);
    }
    if Pristine(last, users, range) {
      assert Acceptors(last) == {} && Phased(last, Responding) == {} && Phased(last, Waiting) == {};
    }
  }

  lemma NothingLeftQuiescent(s: State)
    requires WellFormed(s) && Outstanding(s) == 0
    ensures Quiescent(s)
  {
    forall a | Drains(a) ensures !Enabled(s, a) {
      match a
      case ResponseSent(sid) => assert sid !in Phased(s, Responding);
      case Deregister(sid) => assert sid !in Phased(s, Waiting);
      case AcceptorExit(fe) => assert fe !in Acceptors(s);
      case _ =>
    }
  }

  lemma {:induction false} NoFailuresNoGone(
    users: set<Bytes>, range: set<int>, states: seq<State>, steps: seq<Step>, n: nat)
    requires Run(users, range, states, steps) && n < |states|
    requires forall i :: 0 <= i < |steps| ==> !steps[i].ResponseFailed?
    ensures Phased(states[n], Gone) == {}
  {
    if n > 0 {
      NoFailuresNoGone(users, range, states, steps, n - 1);
      var s, a := states[n - 1], steps[n - 1];
      assert Follows(s, a, states[n]);
      forall t | t in states[n].sessions ensures states[n].sessions[t].phase != Gone {
        assert t !in Phased(s, Gone);
      }
    }
  }

  // ---- failed responses ----

  ghost predicate IsGone(s: State, sid: SessionId) {
    sid in s.sessions && s.sessions[sid].phase == Gone
  }

  /** No step, guarded or not, ends a session whose goroutine has left. */
  lemma GoneStays(s: State, a: Step, sid: SessionId)
    requires WellFormed(s) && Enabled(s, a) && IsGone(s, sid)
    ensures IsGone(Next(s, a), sid) && Next(s, a).sessions[sid] == s.sessions[sid]
  {
  }

  lemma {:induction false} GoneStaysInRun(states: seq<State>, steps: seq<Step>, m: nat, n: nat, sid: SessionId)
    requires Path(Follows, states, steps) && m <= n < |states| && IsGone(states[m], sid)
    ensures IsGone(states[n], sid) && states[n].sessions[sid] == states[m].sessions[sid]
  {
    if m < n {
      GoneStaysInRun(states, steps, m, n - 1, sid);
      assert Follows(states[n - 1], steps[n - 1], states[n]);
      GoneStays(states[n - 1], steps[n - 1], sid);
    }
  }

  /** A session has a slot, so its frontend listens, accepts and holds its port. */
  lemma SessionHoldsPort(s: State, sid: SessionId)
    requires Inv(s) && sid in s.sessions
    ensures var fe := s.sessions[sid].frontend;
      && fe < |s.frontends| && s.frontends[fe].listening && Holds(s, fe, s.frontends[fe].port)
      && s.frontends[fe].port !in s.pool.free
  {
    assert SessionOk(s, sid) && FrontendOk(s, s.sessions[sid].frontend);
    assert Holds(s, s.sessions[sid].frontend, s.frontends[s.sessions[sid].frontend].port);
  }

  /** In a guarded run a session whose response failed stays for good: at every later state
      its frontend listens and accepts, and its port, if managed, is leased. */
  lemma GoneForGood(
    users: set<Bytes>, range: set<int>, states: seq<State>, steps: seq<Step>, m: nat, n: nat, sid: SessionId)
    requires Run(users, range, states, steps) && 0 !in range && m <= n < |states|
    requires Guarded(states, steps) && IsGone(states[m], sid)
    ensures IsGone(states[n], sid) && states[n].sessions[sid] == states[m].sessions[sid]
    ensures var s := states[n];
      var fe := s.sessions[sid].frontend;
      && fe < |s.frontends| && s.frontends[fe].listening && s.frontends[fe].accepting
      && (s.frontends[fe].port in range ==> s.frontends[fe].port in s.pool.leased)
  {
    GoneStaysInRun(states, steps, m, n, sid);
    GuardedRunSafe(users, range, states, steps, n);
    RunKeepsFrame(users, range, states, steps, n);
    SessionHoldsPort(states[n], sid);
  }

  /** A guarded run after which nothing can move leaves the server as new exactly if no
      response failed in it. */
  lemma PristineIffNoFailure(users: set<Bytes>, range: set<int>, states: seq<State>, steps: seq<Step>)
    requires Run(users, range, states, steps) && 0 !in range && Guarded(states, steps)
    requires WellFormed(states[|steps|]) && Quiescent(states[|steps|])
    ensures Pristine(states[|steps|], users, range) <==>
            forall i :: 0 <= i < |steps| ==> !steps[i].ResponseFailed?
  {
    var last := states[|steps|];
    GuardedRunSafe(users, range, states, steps, |steps|);
    RunKeepsFrame(users, range, states, steps, |steps|);
    QuiescentPristineIff(last, users, range);
    if i :| 0 <= i < |steps| && steps[i].ResponseFailed? {
      assert Follows(states[i], steps[i], states[i + 1]);
      GoneStaysInRun(states, steps, i + 1, |steps|, steps[i].sid);
      assert steps[i].sid in Phased(last, Gone);
    } else {
      NoFailuresNoGone(users, range, states, steps, |steps|);
    }
  }
}
