/** The server registry of pkg/muxtunnel.go as a step system: handleStream's two
    critical sections, the acceptor's exit and the control-stream response. */
module Registry {
  import opened GoBytes
  import opened Pool

  type SessionId = nat

  /** muxfrontendRuntimeData, with its listener and its acceptor goroutine. */
  datatype Frontend = Frontend(
    user: Bytes, service: Bytes, port: int,
    listening: bool,  // the listener has not been closed
    accepting: bool,  // the acceptor goroutine has not returned its port yet
    backends: map<Bytes, map<Bytes, SessionId>>)

  /** Where the goroutine of a registered session stands. Gone: it left after a failed
      response, without deregistering. */
  datatype Phase = Responding | Waiting | Gone

  /** A session not yet deregistered, with the locals its goroutine keeps. */
  datatype Session = Session(user: Bytes, service: Bytes, instance: Bytes, addr: Bytes, frontend: nat, phase: Phase)

  /** frontendMap holds indices into frontends, which lists every frontend ever made. */
  datatype State = State(
    pool: Ports,
    frontendMap: map<Bytes, map<Bytes, nat>>,
    frontends: seq<Frontend>,
    sessions: map<SessionId, Session>)

  /** An authorized registration. pick resolves the pool's iteration order, listens is
      the outcome of net.Listen should it be called. */
  datatype Request = Request(
    sid: SessionId, user: Bytes, service: Bytes, instance: Bytes, addr: Bytes,
    port: int, pick: int, listens: bool)

  datatype Step =
    | Register(r: Request)
    | ResponseSent(sid: SessionId)
    | ResponseFailed(sid: SessionId)
    | Deregister(sid: SessionId)
    | AcceptorExit(frontend: nat)

  function Init(users: set<Bytes>, range: set<int>): State {
    State(Ports(range, {}), map u | u in users :: map[], [], map[])
  }

  predicate Live(s: State, user: Bytes, service: Bytes) {
    user in s.frontendMap && service in s.frontendMap[user]
  }

  /** Every index is one of a frontend. */
  ghost predicate WellFormed(s: State) {
    && (forall u, v :: Live(s, u, v) ==> s.frontendMap[u][v] < |s.frontends|)
    && (forall t :: t in s.sessions ==> s.sessions[t].frontend < |s.frontends|)
  }

  /** The port asked of the pool: a live service's own port stands in for 0. */
  function Wanted(s: State, r: Request): int
    requires WellFormed(s)
  {
    if r.port == 0 && Live(s, r.user, r.service) then s.frontends[s.frontendMap[r.user][r.service]].port else r.port
  }

  /** The port in td once the pool has answered, or None when the pool is exhausted. The
      pool's error for an explicit port is ignored. */
  function Port(s: State, r: Request): Option<int>
    requires WellFormed(s)
  {
    if Wanted(s, r) == 0 then HandsOut(s.pool, 0, r.pick) else Some(Wanted(s, r))
  }

  /** Whether startFrontend is called. */
  predicate StartsFrontend(s: State, r: Request)
    requires WellFormed(s)
  {
    && Port(s, r).Some?
    && (Live(s, r.user, r.service) ==> s.frontends[s.frontendMap[r.user][r.service]].port != Port(s, r).value)
  }

  /** Whether the request ends up with its session in a slot. */
  predicate Enrolls(s: State, r: Request)
    requires WellFormed(s)
  {
    Port(s, r).Some? && (StartsFrontend(s, r) ==> r.listens)
  }

  function CloseListener(s: State, fe: nat): State
    requires fe < |s.frontends|
  {
    s.(frontends := s.frontends[fe := s.frontends[fe].(listening := false)])
  }

  function AddBackend(
    b: map<Bytes, map<Bytes, SessionId>>, instance: Bytes, addr: Bytes, sid: SessionId): map<Bytes, map<Bytes,
    SessionId>> {
    var inner: map<Bytes, SessionId> := if instance in b then b[instance] else map[];
    var inner': map<Bytes, SessionId> := inner[addr := sid];
    b[instance := inner']
  }

  function RemoveBackend(
    b: map<Bytes, map<Bytes, SessionId>>, instance: Bytes, addr: Bytes): map<Bytes, map<Bytes, SessionId>> {
    var inner := if instance in b then b[instance] - {addr} else map[];
    if inner == map[] then b - {instance} else b[instance := inner]
  }

  /** pkg/muxtunnel.go:346-350. */
  function Enroll(s: State, r: Request, fe: nat): State
    requires fe < |s.frontends|
  {
    var f := s.frontends[fe];
    s.(frontends := s.frontends[fe := f.(backends := AddBackend(f.backends, r.instance, r.addr, r.sid))],
       sessions := s.sessions[r.sid := Session(r.user, r.service, r.instance, r.addr, fe, Responding)])
  }

  /** startFrontend up to a successful listen, and the map update after it. */
  function StartFrontend(s: State, r: Request, port: int): State
    requires r.user in s.frontendMap
  {
    var services: map<Bytes, nat> := s.frontendMap[r.user][r.service := |s.frontends|];
    s.(frontendMap := s.frontendMap[r.user := services],
       frontends := s.frontends + [Frontend(r.user, r.service, port, true, true, map[])])
  }

  /** pkg/muxtunnel.go:302-351. */
  function AfterRegister(s: State, r: Request): State
    requires WellFormed(s) && r.user in s.frontendMap
  {
    if Port(s, r).None? then s
    else
      var live := Live(s, r.user, r.service);
      var port := Port(s, r).value;
      var s1 := s.(pool := AfterGet(s.pool, Wanted(s, r), r.pick));
      if !StartsFrontend(s, r) then Enroll(s1, r, s.frontendMap[r.user][r.service])
      else
        var s2 := if live then CloseListener(s1, s.frontendMap[r.user][r.service]) else s1;
        if r.listens then Enroll(StartFrontend(s2, r, port), r, |s.frontends|)
        else s2.(pool := AfterReturn(s2.pool, port))
  }

  /** pkg/muxtunnel.go:373-385. */
  function AfterDeregister(s: State, sid: SessionId): State
    requires WellFormed(s) && sid in s.sessions
  {
    var t := s.sessions[sid];
    var f := s.frontends[t.frontend];
    var b := RemoveBackend(f.backends, t.instance, t.addr);
    var s1 := s.(sessions := s.sessions - {sid});
    if b == map[] then
      s1.(frontends := s.frontends[t.frontend := f.(backends := b, listening := false)],
          frontendMap := if t.user in s.frontendMap
                         then s.frontendMap[t.user := s.frontendMap[t.user] - {t.service}]
                         else s.frontendMap)
    else
      s1.(frontends := s.frontends[t.frontend := f.(backends := b)])
  }

  /** pkg/muxtunnel.go:465-468, 511. */
  function AfterAcceptorExit(s: State, fe: nat): State
    requires fe < |s.frontends|
  {
    s.(pool := AfterReturn(s.pool, s.frontends[fe].port),
       frontends := s.frontends[fe := s.frontends[fe].(accepting := false)])
  }

  function WithPhase(s: State, sid: SessionId, phase: Phase): State
    requires sid in s.sessions
  {
    s.(sessions := s.sessions[sid := s.sessions[sid].(phase := phase)])
  }

  /** net.Listen fails on a port some open listener already has. */
  predicate Unbound(s: State, port: int) {
    forall i :: 0 <= i < |s.frontends| && s.frontends[i].listening ==> s.frontends[i].port != port
  }

  /** What the runtime makes possible. The user of an authorized request has an entry in
      frontendMap: every key of Users is its UserID. */
  predicate CanRegister(s: State, r: Request)
    requires WellFormed(s)
  {
    && r.user in s.frontendMap
    && r.sid !in s.sessions
    && PickOk(s.pool, Wanted(s, r), r.pick)
    && (StartsFrontend(s, r) && r.listens ==> Unbound(s, Port(s, r).value))
  }

  /** Accept fails only on a closed listener. */
  predicate Enabled(s: State, a: Step)
    requires WellFormed(s)
  {
    match a
    case Register(r) => CanRegister(s, r)
    case ResponseSent(sid) => sid in s.sessions && s.sessions[sid].phase == Responding
    case ResponseFailed(sid) => sid in s.sessions && s.sessions[sid].phase == Responding
    case Deregister(sid) => sid in s.sessions && s.sessions[sid].phase == Waiting
    case AcceptorExit(fe) => fe < |s.frontends| && !s.frontends[fe].listening && s.frontends[fe].accepting
  }

  function Next(s: State, a: Step): State
    requires WellFormed(s) && Enabled(s, a)
  {
    match a
    case Register(r) => AfterRegister(s, r)
    case ResponseSent(sid) => WithPhase(s, sid, Waiting)
    case ResponseFailed(sid) => WithPhase(s, sid, Gone)
    case Deregister(sid) => AfterDeregister(s, sid)
    case AcceptorExit(fe) => AfterAcceptorExit(s, fe)
  }
}
