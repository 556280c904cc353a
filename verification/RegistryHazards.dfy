/** Runs with one inadmissible registration, and the damage it does. Each holds for every
    choice of names and ports. */
module RegistryHazards {
  import opened GoBytes
  import opened Pool
  import opened Registry
  import opened RegistryInvariant
  import opened RegistryRuns
  import opened Routing
  import opened Runs

  function Backend(r: Request): map<Bytes, map<Bytes, SessionId>> {
    map[r.instance := map[r.addr := r.sid]]
  }

  /** The server after one service has registered on an automatic port. */
  function OneService(r: Request, range: set<int>): State {
    State(Ports(range - {r.pick}, {r.pick}),
          map[r.user := map[r.service := 0]],
          [Frontend(r.user, r.service, r.pick, true, true, Backend(r))],
          map[r.sid := Session(r.user, r.service, r.instance, r.addr, 0, Responding)])
  }

  lemma FirstRegistration(r: Request, range: set<int>)
    requires r.port == 0 && r.listens && r.pick in range && 0 !in range
    ensures Follows(Init({r.user}, range), Register(r), OneService(r, range))
  {
  }

  lemma SentFollows(s: State, sid: SessionId)
    requires WellFormed(s) && sid in s.sessions && s.sessions[sid].phase == Responding
    ensures Follows(s, ResponseSent(sid), WithPhase(s, sid, Waiting))
  {
  }

  /** A second service asks for the first one's port and its listen fails: the pool takes
      the port back from under the first service and can hand it out again. */
  lemma FailedListenStealsPort(a: Request, b: Request, range: set<int>) returns (s: State)
    requires a.port == 0 && a.listens && a.pick in range && 0 !in range
    requires b.user == a.user && b.service != a.service && b.sid != a.sid && b.port == a.pick && !b.listens
    ensures Run({a.user}, range, [Init({a.user}, range), OneService(a, range), s], [Register(a), Register(b)])
    ensures Holds(s, 0, a.pick) && s.frontends[0].listening && a.pick in s.pool.free
  {
    FirstRegistration(a, range);
    var s1 := OneService(a, range);
    s := AfterRegister(s1, b);
    assert Follows(s1, Register(b), s);
  }

  /** The service after it has moved from frontend 0 to frontend 1. */
  function Moved(a: Request, b: Request, range: set<int>): State {
    State(Ports(range - {a.pick} - {b.port}, {a.pick, b.port}),
          map[a.user := map[a.service := 1]],
          [Frontend(a.user, a.service, a.pick, false, true, Backend(a)),
           Frontend(a.user, a.service, b.port, true, true, Backend(b))],
          map[a.sid := Session(a.user, a.service, a.instance, a.addr, 0, Waiting),
              b.sid := Session(b.user, b.service, b.instance, b.addr, 1, Responding)])
  }

  /** ...and after the session of frontend 0 has left. */
  function Orphaned(a: Request, b: Request, range: set<int>): State {
    var s := Moved(a, b, range);
    State(s.pool, map[a.user := map[]],
          [s.frontends[0].(backends := map[]), s.frontends[1]],
          map[b.sid := s.sessions[b.sid]])
  }

  /** The service before the move. */
  function Settled(a: Request, range: set<int>): State {
    WithPhase(OneService(a, range), a.sid, Waiting)
  }

  lemma MovedState(a: Request, b: Request, range: set<int>)
    requires a.port == 0 && a.pick in range && 0 !in range
    requires b.user == a.user && b.service == a.service && b.sid != a.sid
    requires b.port in range && b.port != a.pick && b.listens
    ensures AfterRegister(Settled(a, range), b) == Moved(a, b, range)
  {
    var s := Settled(a, range);
    var s' := AfterRegister(s, b);
    assert Port(s, b) == Some(b.port);
    assert s'.frontendMap[a.user] == Moved(a, b, range).frontendMap[a.user];
    assert s'.frontendMap == Moved(a, b, range).frontendMap;
    assert s'.sessions == Moved(a, b, range).sessions;
    assert s'.frontends == Moved(a, b, range).frontends;
  }

  lemma MovedFollows(a: Request, b: Request, range: set<int>)
    requires a.port == 0 && a.pick in range && 0 !in range
    requires b.user == a.user && b.service == a.service && b.sid != a.sid
    requires b.port in range && b.port != a.pick && b.listens
    ensures Follows(Settled(a, range), Register(b), Moved(a, b, range))
  {
    MovedState(a, b, range);
  }

  lemma OrphanedFollows(a: Request, b: Request, range: set<int>)
    requires b.user == a.user && b.service == a.service && b.sid != a.sid
    ensures Follows(Moved(a, b, range), Deregister(a.sid), Orphaned(a, b, range))
  {
    var s := Moved(a, b, range);
    assert map[a.addr := a.sid] - {a.addr} == map[];
    assert RemoveBackend(Backend(a), a.instance, a.addr) == map[];
    var s' := AfterDeregister(s, a.sid);
    assert s'.frontendMap == Orphaned(a, b, range).frontendMap;
    assert s'.sessions == Orphaned(a, b, range).sessions;
    assert s'.frontends == Orphaned(a, b, range).frontends;
  }

  lemma OrphanUnroutable(a: Request, b: Request, range: set<int>)
    requires b.user == a.user && b.service == a.service
    ensures var s := Orphaned(a, b, range);
      && WellFormed(s) && s.frontends[1].listening
      && RegisteredFor(s, b.sid, b.user, b.service, b.instance)
      && Candidates(s, b.user, b.service, b.instance) == map[]
  {
  }

  /** A service moves to another port while an older session of it is still there. When
      that session leaves, the map entry of the new frontend goes with it: a listening
      frontend with a live session that no connection can be routed to. */
  lemma PortChangeOrphans(a: Request, b: Request, range: set<int>) returns (states: seq<State>)
    requires a.port == 0 && a.listens && a.pick in range && 0 !in range
    requires b.user == a.user && b.service == a.service && b.sid != a.sid
    requires b.port in range && b.port != a.pick && b.listens
    ensures |states| == 5 && states[4] == Orphaned(a, b, range)
    ensures Run({a.user}, range, states, [Register(a), ResponseSent(a.sid), Register(b), Deregister(a.sid)])
    ensures var s := states[4];
      && WellFormed(s)
      && s.frontends[1].listening && RegisteredFor(s, b.sid, b.user, b.service, b.instance)
      && Candidates(s, b.user, b.service, b.instance) == map[]
  {
    FirstRegistration(a, range);
    var s0, s1 := Init({a.user}, range), OneService(a, range);
    var s2, s3, s4 := Settled(a, range), Moved(a, b, range), Orphaned(a, b, range);
    SentFollows(s1, a.sid);
    MovedFollows(a, b, range);
    OrphanedFollows(a, b, range);
    OrphanUnroutable(a, b, range);
    FourSteps(Follows, s0, Register(a), s1, ResponseSent(a.sid), s2, Register(b), s3, Deregister(a.sid), s4);
    states := [s0, s1, s2, s3, s4];
  }

  /** The first service has left, its acceptor has not returned the port yet. */
  function Left(a: Request, range: set<int>): State {
    State(Ports(range - {a.pick}, {a.pick}), map[a.user := map[]],
          [Frontend(a.user, a.service, a.pick, false, true, map[])], map[])
  }

  /** Another service has taken the same port by name in the meantime. */
  function Rebound(a: Request, b: Request, range: set<int>): State {
    State(Ports(range - {a.pick}, {a.pick}), map[a.user := map[b.service := 1]],
          [Frontend(a.user, a.service, a.pick, false, true, map[]),
           Frontend(b.user, b.service, a.pick, true, true, Backend(b))],
          map[b.sid := Session(b.user, b.service, b.instance, b.addr, 1, Responding)])
  }

  lemma LeftFollows(a: Request, range: set<int>)
    ensures Follows(Settled(a, range), Deregister(a.sid), Left(a, range))
  {
  }

  lemma ReboundFollows(a: Request, b: Request, range: set<int>)
    requires b.user == a.user && b.port == a.pick != 0 && b.listens
    ensures Follows(Left(a, range), Register(b), Rebound(a, b, range))
  {
  }

  lemma ReturnedFollows(a: Request, b: Request, range: set<int>) returns (s: State)
    ensures Follows(Rebound(a, b, range), AcceptorExit(0), s)
    ensures Holds(s, 1, a.pick) && s.frontends[1].listening && a.pick in s.pool.free
  {
    s := AfterAcceptorExit(Rebound(a, b, range), 0);
  }

  /** A port rebound before its old acceptor has returned it is returned under the new
      holder. */
  lemma EarlyRebindLosesPort(a: Request, b: Request, range: set<int>) returns (states: seq<State>)
    requires a.port == 0 && a.listens && a.pick in range && 0 !in range
    requires b.user == a.user && b.port == a.pick && b.listens
    ensures |states| == 6
    ensures Run({a.user}, range, states,
                [Register(a), ResponseSent(a.sid), Deregister(a.sid), Register(b), AcceptorExit(0)])
    ensures var s := states[5];
      Holds(s, 1, a.pick) && s.frontends[1].listening && a.pick in s.pool.free
  {
    FirstRegistration(a, range);
    var s0, s1 := Init({a.user}, range), OneService(a, range);
    var s2, s3, s4 := Settled(a, range), Left(a, range), Rebound(a, b, range);
    SentFollows(s1, a.sid);
    LeftFollows(a, range);
    ReboundFollows(a, b, range);
    var s5 := ReturnedFollows(a, b, range);
    FiveSteps(
      Follows,
      s0, Register(a), s1, ResponseSent(a.sid), s2, Deregister(a.sid), s3, Register(b), s4, AcceptorExit(0), s5);
    states := [s0, s1, s2, s3, s4, s5];
  }

  /** A response that cannot be sent: the run is over, nothing can move any more, and the
      port stays leased to a frontend that no session will ever give up. */
  lemma FailedResponseLeaks(a: Request, range: set<int>) returns (s: State)
    requires a.port == 0 && a.listens && a.pick in range && 0 !in range
    ensures Run({a.user}, range, [Init({a.user}, range), OneService(a, range), s], [Register(a), ResponseFailed(a.sid)])
    ensures Guarded([Init({a.user}, range), OneService(a, range), s], [Register(a), ResponseFailed(a.sid)])
    ensures WellFormed(s) && Quiescent(s) && !Pristine(s, {a.user}, range)
    ensures IsGone(s, a.sid) && s.frontends[0].listening && a.pick in s.pool.leased
  {
    var s0, s1 := Init({a.user}, range), OneService(a, range);
    s := WithPhase(s1, a.sid, Gone);
    FirstRegistration(a, range);
    FailedFollows(a, range);
    TwoSteps(Follows, s0, Register(a), s1, ResponseFailed(a.sid), s);
    FirstIsGuarded(a, range);
  }

  lemma FailedFollows(a: Request, range: set<int>)
    ensures var s := WithPhase(OneService(a, range), a.sid, Gone);
      && Follows(OneService(a, range), ResponseFailed(a.sid), s)
      && WellFormed(s) && Quiescent(s) && IsGone(s, a.sid)
  {
  }

  lemma FirstIsGuarded(a: Request, range: set<int>)
    requires a.port == 0 && 0 !in range
    ensures GuardedStep(Init({a.user}, range), Register(a))
    ensures GuardedStep(OneService(a, range), ResponseFailed(a.sid))
  {
  }
}
