/** The agreement of frontend map, backend maps, listeners and port pool, and exactly
    when a registration keeps it. */
module RegistryInvariant {
  import opened GoBytes
  import opened Pool
  import opened Registry

  /** s.frontends[i] is the frontend its own service name maps to. */
  ghost predicate Mapped(s: State, i: nat)
    requires i < |s.frontends|
  {
    var f := s.frontends[i];
    Live(s, f.user, f.service) && s.frontendMap[f.user][f.service] == i
  }

  ghost predicate InSlot(f: Frontend, instance: Bytes, addr: Bytes, sid: SessionId) {
    instance in f.backends && addr in f.backends[instance] && f.backends[instance][addr] == sid
  }

  /** A frontend is filed under its own names. */
  ghost predicate Filed(s: State) {
    forall u, v :: Live(s, u, v) ==>
      var i := s.frontendMap[u][v];
      i < |s.frontends| && s.frontends[i].user == u && s.frontends[i].service == v
  }

  /** Mapped exactly when it has a backend, exactly when its listener is open. */
  ghost predicate FrontendOk(s: State, i: nat)
    requires i < |s.frontends|
  {
    var f := s.frontends[i];
    && (f.listening <==> f.backends != map[])
    && (f.listening <==> Mapped(s, i))
    && (f.listening ==> f.accepting)
    && f.port != 0
    && (forall inst :: inst in f.backends ==> f.backends[inst] != map[])
  }

  ghost predicate SessionOk(s: State, sid: SessionId)
    requires sid in s.sessions
  {
    var t := s.sessions[sid];
    && t.frontend < |s.frontends|
    && s.frontends[t.frontend].user == t.user && s.frontends[t.frontend].service == t.service
    && InSlot(s.frontends[t.frontend], t.instance, t.addr, sid)
  }

  /** Whatever sits in a slot is the session that registered for it. */
  ghost predicate SlotsOk(s: State) {
    forall i, inst, addr, sid :: 0 <= i < |s.frontends| && InSlot(s.frontends[i], inst, addr, sid) ==>
      && sid in s.sessions
      && s.sessions[sid].frontend == i && s.sessions[sid].instance == inst && s.sessions[sid].addr == addr
  }

  ghost predicate Holds(s: State, i: int, port: int) {
    0 <= i < |s.frontends| && s.frontends[i].accepting && s.frontends[i].port == port
  }

  /** The leased ports are, one to one, the in-range ports of the running acceptors. */
  ghost predicate PoolOk(s: State) {
    && s.pool.free !! s.pool.leased
    && 0 !in s.pool.free + s.pool.leased
    && (forall i, p :: Holds(s, i, p) ==> p !in s.pool.free)
    && (forall p :: p in s.pool.leased ==> exists i :: Holds(s, i, p))
    && (forall i, j, p :: p in s.pool.leased && Holds(s, i, p) && Holds(s, j, p) ==> i == j)
  }

  ghost predicate Inv(s: State) {
    && Filed(s)
    && (forall i :: 0 <= i < |s.frontends| ==> FrontendOk(s, i))
    && (forall sid :: sid in s.sessions ==> SessionOk(s, sid))
    && SlotsOk(s)
    && PoolOk(s)
  }

  lemma InvWellFormed(s: State)
    requires Inv(s)
    ensures WellFormed(s)
  {
  }

  lemma InitInv(users: set<Bytes>, range: set<int>)
    requires 0 !in range
    ensures Inv(Init(users, range))
  {
  }

  /** The guard. A live service is asked for 0 or its current port, a service that is not
      live for 0, a free port or a port the pool does not manage; and the remote address
      is not already that of a backend of this instance. */
  ghost predicate Admissible(s: State, r: Request)
    requires WellFormed(s)
  {
    if Live(s, r.user, r.service) then
      var f := s.frontends[s.frontendMap[r.user][r.service]];
      && (r.port == 0 || r.port == f.port)
      && !(r.instance in f.backends && r.addr in f.backends[r.instance])
    else
      r.port !in s.pool.leased
  }

  // ---- registrations that keep the invariant ----

  /** A live service reuses its frontend, and the pool answers no. */
  lemma ReuseShape(s: State, r: Request)
    requires Inv(s) && WellFormed(s) && CanRegister(s, r) && Live(s, r.user, r.service)
    requires r.port == 0 || r.port == s.frontends[s.frontendMap[r.user][r.service]].port
    ensures AfterRegister(s, r) == Enroll(s, r, s.frontendMap[r.user][r.service])
  {
    var fe := s.frontendMap[r.user][r.service];
    assert FrontendOk(s, fe);
    assert Holds(s, fe, s.frontends[fe].port);
  }

  lemma AddKeepsNonEmpty(b: map<Bytes, map<Bytes, SessionId>>, instance: Bytes, addr: Bytes, sid: SessionId)
    requires forall i :: i in b ==> b[i] != map[]
    ensures forall i :: i in AddBackend(b, instance, addr, sid) ==> AddBackend(b, instance, addr, sid)[i] != map[]
  {
    assert addr in AddBackend(b, instance, addr, sid)[instance];
  }

  lemma EnrollKeepsFrontends(s: State, r: Request)
    requires Inv(s) && WellFormed(s) && Live(s, r.user, r.service)
    ensures var s' := Enroll(s, r, s.frontendMap[r.user][r.service]);
      Filed(s') && (forall i :: 0 <= i < |s'.frontends| ==> FrontendOk(s', i)) && PoolOk(s')
  {
    var fe := s.frontendMap[r.user][r.service];
    var s' := Enroll(s, r, fe);
    assert FrontendOk(s, fe);
    AddKeepsNonEmpty(s.frontends[fe].backends, r.instance, r.addr, r.sid);
    forall i | 0 <= i < |s'.frontends| ensures FrontendOk(s', i) {
      assert FrontendOk(s, i);
    }
    forall i, p ensures Holds(s', i, p) <==> Holds(s, i, p) {
    }
  }

  lemma EnrollKeepsInv(s: State, r: Request)
    requires Inv(s) && WellFormed(s) && CanRegister(s, r) && Live(s, r.user, r.service)
    requires Admissible(s, r)
    ensures Inv(Enroll(s, r, s.frontendMap[r.user][r.service]))
  {
    var fe := s.frontendMap[r.user][r.service];
    var s' := Enroll(s, r, fe);
    EnrollKeepsFrontends(s, r);
    forall sid | sid in s'.sessions ensures SessionOk(s', sid) {
      if sid != r.sid {
        assert SessionOk(s, sid);
      }
    }
    forall i, inst, addr, sid | 0 <= i < |s'.frontends| && InSlot(s'.frontends[i], inst, addr, sid)
      ensures && sid in s'.sessions
              && s'.sessions[sid].frontend == i && s'.sessions[sid].instance == inst && s'.sessions[sid].addr == addr
    {
      if !(i == fe && inst == r.instance && addr == r.addr) {
        assert InSlot(s.frontends[i], inst, addr, sid);
      }
    }
  }

  /** A failed listen for a service that is not live leaves no trace. */
  lemma FailedListenRestores(s: State, r: Request)
    requires Inv(s) && WellFormed(s) && CanRegister(s, r) && !Live(s, r.user, r.service)
    requires Admissible(s, r) && !r.listens
    ensures AfterRegister(s, r) == s
  {
  }

  /** The whole new state of a registration that starts a frontend. */
  lemma StartShape(s: State, r: Request)
    requires WellFormed(s) && CanRegister(s, r) && !Live(s, r.user, r.service)
    requires r.listens && Port(s, r).Some?
    ensures var s' := AfterRegister(s, r);
      && s'.frontends == s.frontends
           + [Frontend(r.user, r.service, Port(s, r).value, true, true, map[r.instance := map[r.addr := r.sid]])]
      && s'.sessions == s.sessions[r.sid := Session(r.user, r.service, r.instance, r.addr, |s.frontends|, Responding)]
      && s'.pool == AfterGet(s.pool, Wanted(s, r), r.pick)
      && (forall u, v :: Live(s', u, v) <==> (u == r.user && v == r.service) || Live(s, u, v))
      && (forall u, v :: Live(s', u, v) ==>
            s'.frontendMap[u][v] == if u == r.user && v == r.service then |s.frontends| else s.frontendMap[u][v])
  {
  }

  /** A live service that asks for another port. The old listener is closed in any case; a
      successful listen puts a new frontend with only this session in its place, a failed
      one frees the port if anyone holds it and leaves the closed frontend in the map. */
  lemma MoveShape(s: State, r: Request)
    requires WellFormed(s) && CanRegister(s, r) && Live(s, r.user, r.service)
    requires r.port != 0 && r.port != s.frontends[s.frontendMap[r.user][r.service]].port
    ensures var s', fe := AfterRegister(s, r), s.frontendMap[r.user][r.service];
      var closed := s.frontends[fe := s.frontends[fe].(listening := false)];
      var services: map<Bytes, nat> := s.frontendMap[r.user][r.service := |closed|];
      if r.listens then
        && s'.frontends == closed
             + [Frontend(r.user, r.service, r.port, true, true, map[r.instance := map[r.addr := r.sid]])]
        && s'.sessions == s.sessions[r.sid := Session(r.user, r.service, r.instance, r.addr, |closed|, Responding)]
        && s'.frontendMap == s.frontendMap[r.user := services]
        && s'.pool == (if r.port in s.pool.free
                       then Ports(s.pool.free - {r.port}, s.pool.leased + {r.port}) else s.pool)
      else
        && s'.frontends == closed && s'.sessions == s.sessions && s'.frontendMap == s.frontendMap
        && s'.pool == if r.port in s.pool.free + s.pool.leased
                      then Ports(s.pool.free + {r.port}, s.pool.leased - {r.port}) else s.pool
  {
    MovePool(s.pool, r.port, r.pick);
  }

  lemma MovePool(p: Ports, v: int, pick: int)
    requires v != 0
    ensures AfterReturn(AfterGet(p, v, pick), v) ==
      if v in p.free + p.leased then Ports(p.free + {v}, p.leased - {v}) else p
  {
    if v in p.free {
      assert p.free - {v} + {v} == p.free + {v};
      assert p.leased + {v} - {v} == p.leased - {v};
    }
  }

  /** Whether a registration gets its session enrolled, and on which port, for every state
      and request: 0 stands for the live service's port, the pool is asked only if there is
      none, and its answer to an explicit port does not matter. */
  lemma RegisterOutcome(s: State, r: Request)
    requires WellFormed(s) && CanRegister(s, r)
    ensures var s', live := AfterRegister(s, r), Live(s, r.user, r.service);
      var current := if live then s.frontends[s.frontendMap[r.user][r.service]].port else 0;
      var explicit := if r.port == 0 then current else r.port;
      var port := if explicit == 0 then r.pick else explicit;
      && (r.sid in s'.sessions <==>
            (explicit != 0 || s.pool.free != {}) && ((live && port == current) || r.listens))
      && (r.sid in s'.sessions ==>
            && s'.sessions[r.sid].frontend < |s'.frontends|
            && s'.frontends[s'.sessions[r.sid].frontend].port == port)
      && (r.sid !in s'.sessions ==> s'.sessions == s.sessions)
  {
  }

  lemma StartKeepsFrontends(s: State, r: Request)
    requires Inv(s) && WellFormed(s) && CanRegister(s, r) && !Live(s, r.user, r.service)
    requires Admissible(s, r) && r.listens && Port(s, r).Some?
    ensures var s' := AfterRegister(s, r);
      Filed(s') && forall i :: 0 <= i < |s'.frontends| ==> FrontendOk(s', i)
  {
    var s' := AfterRegister(s, r);
    StartShape(s, r);
    assert map[r.addr := r.sid] != map[] by {
      assert r.addr in map[r.addr := r.sid];
    }
    forall i | 0 <= i < |s'.frontends| ensures FrontendOk(s', i) {
      if i < |s.frontends| {
        assert FrontendOk(s, i);
        assert s'.frontends[i] == s.frontends[i];
        assert Mapped(s', i) <==> Mapped(s, i);
      }
    }
  }

  lemma StartKeepsInv(s: State, r: Request)
    requires Inv(s) && WellFormed(s) && CanRegister(s, r) && !Live(s, r.user, r.service)
    requires Admissible(s, r) && r.listens && Port(s, r).Some?
    ensures Inv(AfterRegister(s, r))
  {
    var s' := AfterRegister(s, r);
    StartKeepsFrontends(s, r);
    StartKeepsPool(s, r);
    StartShape(s, r);
    forall sid | sid in s'.sessions ensures SessionOk(s', sid) {
      if sid != r.sid {
        assert SessionOk(s, sid);
      }
    }
    forall i, inst, addr, sid | 0 <= i < |s'.frontends| && InSlot(s'.frontends[i], inst, addr, sid)
      ensures && sid in s'.sessions
              && s'.sessions[sid].frontend == i && s'.sessions[sid].instance == inst && s'.sessions[sid].addr == addr
    {
      if i < |s.frontends| {
        assert InSlot(s.frontends[i], inst, addr, sid);
      }
    }
  }

  lemma StartKeepsPool(s: State, r: Request)
    requires Inv(s) && WellFormed(s) && CanRegister(s, r) && !Live(s, r.user, r.service)
    requires Admissible(s, r) && r.listens && Port(s, r).Some?
    ensures PoolOk(AfterRegister(s, r))
  {
    var s' := AfterRegister(s, r);
    var n := |s.frontends|;
    var port := Port(s, r).value;
    forall i, p ensures Holds(s', i, p) <==> Holds(s, i, p) || (i == n && p == port) {
    }
    forall p | p in s'.pool.leased ensures exists i :: Holds(s', i, p) {
      if p == port {
        assert Holds(s', n, p);
      } else {
        var i :| Holds(s, i, p);
        assert Holds(s', i, p);
      }
    }
  }

  // ---- registrations that break it ----

  /** Asking a live service for another port strands its old frontend, whatever net.Listen
      says: the listener is closed while sessions still sit in it. */
  lemma PortChangeBreaksInv(s: State, r: Request)
    requires Inv(s) && WellFormed(s) && CanRegister(s, r) && Live(s, r.user, r.service)
    requires r.port != 0 && r.port != s.frontends[s.frontendMap[r.user][r.service]].port
    ensures !Inv(AfterRegister(s, r))
  {
    var fe := s.frontendMap[r.user][r.service];
    var s' := AfterRegister(s, r);
    assert FrontendOk(s, fe);
    assert !s'.frontends[fe].listening && s'.frontends[fe].backends == s.frontends[fe].backends;
    assert !FrontendOk(s', fe);
  }

  /** Asking for a leased port: a successful listen gives the port a second holder, a
      failed one returns it to the pool under its holder. */
  lemma LeasedPortBreaksInv(s: State, r: Request)
    requires Inv(s) && WellFormed(s) && CanRegister(s, r) && !Live(s, r.user, r.service)
    requires r.port in s.pool.leased
    ensures !Inv(AfterRegister(s, r))
  {
    var s' := AfterRegister(s, r);
    var i :| Holds(s, i, r.port);
    assert Holds(s', i, r.port);
    if r.listens {
      assert Holds(s', |s.frontends|, r.port);
    } else {
      assert r.port in s'.pool.free;
    }
  }

  lemma SameAddressBreaksInv(s: State, r: Request)
    requires Inv(s) && WellFormed(s) && CanRegister(s, r) && Live(s, r.user, r.service)
    requires r.port == 0 || r.port == s.frontends[s.frontendMap[r.user][r.service]].port
    requires var f := s.frontends[s.frontendMap[r.user][r.service]];
      r.instance in f.backends && r.addr in f.backends[r.instance]
    ensures !Inv(AfterRegister(s, r))
  {
    var fe := s.frontendMap[r.user][r.service];
    var old' := s.frontends[fe].backends[r.instance][r.addr];
    ReuseShape(s, r);
    var s' := AfterRegister(s, r);
    assert InSlot(s.frontends[fe], r.instance, r.addr, old');
    assert s'.sessions[old'] == s.sessions[old'];
    assert !SessionOk(s', old');
  }

  /** From any good state, a registration leads to a good state exactly when it is
      admissible. */
  lemma RegisterKeepsInvIff(s: State, r: Request)
    requires Inv(s) && WellFormed(s) && CanRegister(s, r)
    ensures Inv(AfterRegister(s, r)) <==> Admissible(s, r)
  {
    if Live(s, r.user, r.service) {
      if r.port != 0 && r.port != s.frontends[s.frontendMap[r.user][r.service]].port {
        PortChangeBreaksInv(s, r);
      } else if Admissible(s, r) {
        ReuseShape(s, r);
        EnrollKeepsInv(s, r);
      } else {
        SameAddressBreaksInv(s, r);
      }
    } else if !Admissible(s, r) {
      LeasedPortBreaksInv(s, r);
    } else if !r.listens {
      FailedListenRestores(s, r);
    } else if Port(s, r).Some? {
      StartKeepsInv(s, r);
    }
  }

  // ---- the other steps ----

  lemma PhaseKeepsInv(s: State, sid: SessionId, phase: Phase)
    requires Inv(s) && sid in s.sessions
    ensures Inv(WithPhase(s, sid, phase))
  {
    var s' := WithPhase(s, sid, phase);
    forall i | 0 <= i < |s'.frontends| ensures FrontendOk(s', i) {
      assert FrontendOk(s, i);
    }
    forall t | t in s'.sessions ensures SessionOk(s', t) {
      assert SessionOk(s, t);
    }
    forall i, p ensures Holds(s', i, p) <==> Holds(s, i, p) {
    }
  }

  lemma ExitKeepsInv(s: State, fe: nat)
    requires Inv(s) && WellFormed(s) && Enabled(s, AcceptorExit(fe))
    ensures Inv(AfterAcceptorExit(s, fe))
  {
    var s' := AfterAcceptorExit(s, fe);
    var port := s.frontends[fe].port;
    forall i | 0 <= i < |s'.frontends| ensures FrontendOk(s', i) {
      assert FrontendOk(s, i);
      assert Mapped(s', i) <==> Mapped(s, i);
    }
    forall t | t in s'.sessions ensures SessionOk(s', t) {
      assert SessionOk(s, t);
    }
    forall i, inst, addr, sid | 0 <= i < |s'.frontends| && InSlot(s'.frontends[i], inst, addr, sid)
      ensures InSlot(s.frontends[i], inst, addr, sid)
    {
    }
    forall i, p ensures Holds(s', i, p) <==> Holds(s, i, p) && i != fe {
    }
    assert Holds(s, fe, port);
    forall p | p in s'.pool.leased ensures exists i :: Holds(s', i, p) {
      var i :| Holds(s, i, p);
      assert Holds(s', i, p);
    }
  }

  ghost predicate EmptiesSlot(
    b: map<Bytes, map<Bytes, SessionId>>, b': map<Bytes, map<Bytes, SessionId>>, instance: Bytes, addr: Bytes) {
    && (forall i :: i in b' ==> i in b && b'[i] != map[])
    && (forall i, a :: i in b' && a in b'[i] <==> i in b && a in b[i] && !(i == instance && a == addr))
    && (forall i, a :: i in b' && a in b'[i] ==> b'[i][a] == b[i][a])
  }

  /** RemoveBackend empties exactly one slot and leaves no inner map empty. */
  lemma RemoveBackendSlots(b: map<Bytes, map<Bytes, SessionId>>, instance: Bytes, addr: Bytes)
    requires forall i :: i in b ==> b[i] != map[]
    requires instance in b && addr in b[instance]
    ensures EmptiesSlot(b, RemoveBackend(b, instance, addr), instance, addr)
  {
    var b' := RemoveBackend(b, instance, addr);
    forall i, a | i in b && a in b[i] && !(i == instance && a == addr) ensures i in b' && a in b'[i] {
      if i == instance {
        assert a in b[instance] - {addr};
      }
    }
  }

  /** s' is s without session sid, whose frontend is unmapped and closed if b, its
      remaining backends, is empty. */
  ghost predicate Deregistered(s: State, sid: SessionId, s': State)
    requires sid in s.sessions && s.sessions[sid].frontend < |s.frontends|
  {
    var t := s.sessions[sid];
    && |s'.frontends| == |s.frontends|
    && (forall i :: 0 <= i < |s.frontends| && i != t.frontend ==> s'.frontends[i] == s.frontends[i])
    && s'.sessions == s.sessions - {sid} && s'.pool == s.pool
    && (var f, f' := s.frontends[t.frontend], s'.frontends[t.frontend];
        && f' == f.(backends := f'.backends, listening := f'.backends != map[])
        && EmptiesSlot(f.backends, f'.backends, t.instance, t.addr)
        && (forall u, v ::
              Live(s', u, v) <==> Live(s, u, v) && !(f'.backends == map[] && u == t.user && v == t.service)))
    && (forall u, v :: Live(s', u, v) ==> s'.frontendMap[u][v] == s.frontendMap[u][v])
  }

  lemma DeregisterShape(s: State, sid: SessionId)
    requires WellFormed(s) && sid in s.sessions && SessionOk(s, sid) && FrontendOk(s, s.sessions[sid].frontend)
    ensures Deregistered(s, sid, AfterDeregister(s, sid))
  {
    var t := s.sessions[sid];
    RemoveBackendSlots(s.frontends[t.frontend].backends, t.instance, t.addr);
  }

  lemma DeregisteredFrontends(s: State, sid: SessionId, s': State)
    requires Filed(s) && forall i :: 0 <= i < |s.frontends| ==> FrontendOk(s, i)
    requires sid in s.sessions && SessionOk(s, sid) && Deregistered(s, sid, s')
    ensures Filed(s') && forall i :: 0 <= i < |s'.frontends| ==> FrontendOk(s', i)
  {
    var t := s.sessions[sid];
    assert FrontendOk(s, t.frontend);
    forall i | 0 <= i < |s'.frontends| ensures FrontendOk(s', i) {
      assert FrontendOk(s, i);
      if i != t.frontend {
        assert s'.frontends[i] == s.frontends[i];
        assert Mapped(s', i) <==> Mapped(s, i);
      }
    }
  }

  lemma DeregisteredSessions(s: State, sid: SessionId, s': State)
    requires SlotsOk(s) && forall u :: u in s.sessions ==> SessionOk(s, u)
    requires sid in s.sessions && SessionOk(s, sid) && Deregistered(s, sid, s')
    ensures SlotsOk(s') && forall u :: u in s'.sessions ==> SessionOk(s', u)
  {
    forall u | u in s'.sessions ensures SessionOk(s', u) {
      assert SessionOk(s, u);
    }
    forall i, inst, addr, u | 0 <= i < |s'.frontends| && InSlot(s'.frontends[i], inst, addr, u)
      ensures InSlot(s.frontends[i], inst, addr, u) && u != sid
    {
      assert InSlot(s.frontends[i], inst, addr, u);
    }
  }

  lemma DeregisterKeepsInv(s: State, sid: SessionId)
    requires Inv(s) && WellFormed(s) && sid in s.sessions
    ensures Inv(AfterDeregister(s, sid))
  {
    var s' := AfterDeregister(s, sid);
    assert SessionOk(s, sid) && FrontendOk(s, s.sessions[sid].frontend);
    DeregisterShape(s, sid);
    DeregisteredFrontends(s, sid, s');
    DeregisteredSessions(s, sid, s');
    forall i, p ensures Holds(s', i, p) <==> Holds(s, i, p) {
    }
  }

  /** One step: every step other than a registration keeps the invariant, a registration
      exactly when it is admissible. */
  lemma NextKeepsInvIff(s: State, a: Step)
    requires Inv(s) && WellFormed(s) && Enabled(s, a)
    ensures Inv(Next(s, a)) <==> (a.Register? ==> Admissible(s, a.r))
  {
    match a
    case Register(r) => RegisterKeepsInvIff(s, r);
    case ResponseSent(sid) => PhaseKeepsInv(s, sid, Waiting);
    case ResponseFailed(sid) => PhaseKeepsInv(s, sid, Gone);
    case Deregister(sid) => DeregisterKeepsInv(s, sid);
    case AcceptorExit(fe) => ExitKeepsInv(s, fe);
  }
}
