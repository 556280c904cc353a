/** Which backend a user connection is handed to: doProxy's choice in pkg/muxtunnel.go. */
module Routing {
  import opened GoBytes
  import opened Pool
  import opened Registry
  import opened RegistryInvariant
  import opened RegistryRuns

  /** The backends doProxy chooses among for an instance of a service. */
  function Candidates(s: State, user: Bytes, service: Bytes, instance: Bytes): map<Bytes, SessionId>
    requires WellFormed(s)
  {
    if Live(s, user, service) then
      var b := s.frontends[s.frontendMap[user][service]].backends;
      if instance in b then b[instance] else map[]
    else map[]
  }

  ghost predicate RegisteredFor(s: State, sid: SessionId, user: Bytes, service: Bytes, instance: Bytes) {
    && sid in s.sessions
    && s.sessions[sid].user == user && s.sessions[sid].service == service && s.sessions[sid].instance == instance
  }

  /** c maps exactly the addresses of the sessions registered for the instance to them. */
  ghost predicate Routes(s: State, c: map<Bytes, SessionId>, user: Bytes, service: Bytes, instance: Bytes) {
    && (forall addr :: addr in c ==>
          RegisteredFor(s, c[addr], user, service, instance) && s.sessions[c[addr]].addr == addr)
    && (forall sid :: RegisteredFor(s, sid, user, service, instance) ==>
          s.sessions[sid].addr in c && c[s.sessions[sid].addr] == sid)
  }

  /** The candidates are exactly the sessions registered for that user, service and
      instance and not yet deregistered, each under its own address. */
  lemma RoutingExact(s: State, user: Bytes, service: Bytes, instance: Bytes)
    requires Inv(s) && WellFormed(s)
    ensures Routes(s, Candidates(s, user, service, instance), user, service, instance)
  {
    var c := Candidates(s, user, service, instance);
    forall addr | addr in c
      ensures RegisteredFor(s, c[addr], user, service, instance) && s.sessions[c[addr]].addr == addr
    {
      assert InSlot(s.frontends[s.frontendMap[user][service]], instance, addr, c[addr]);
      assert SessionOk(s, c[addr]);
    }
    forall sid | RegisteredFor(s, sid, user, service, instance)
      ensures s.sessions[sid].addr in c && c[s.sessions[sid].addr] == sid
    {
      assert SessionOk(s, sid) && FrontendOk(s, s.sessions[sid].frontend);
      assert Mapped(s, s.sessions[sid].frontend);
    }
  }

  /** Where a service is reachable, if it is. */
  function PortOf(s: State, user: Bytes, service: Bytes): Option<int>
    requires WellFormed(s)
  {
    if Live(s, user, service) then Some(s.frontends[s.frontendMap[user][service]].port) else None
  }

  lemma ReuseRoutes(s: State, r: Request, user: Bytes, service: Bytes, instance: Bytes)
    requires WellFormed(s) && Live(s, r.user, r.service) && Filed(s)
    ensures var fe := s.frontendMap[r.user][r.service];
      var s' := Enroll(s, r, fe);
      && WellFormed(s')
      && Candidates(s', user, service, instance) ==
           (if user == r.user && service == r.service && instance == r.instance
            then Candidates(s, user, service, instance)[r.addr := r.sid]
            else Candidates(s, user, service, instance))
      && PortOf(s', user, service) == PortOf(s, user, service)
  {
  }

  lemma StartRoutes(s: State, r: Request, user: Bytes, service: Bytes, instance: Bytes)
    requires WellFormed(s) && CanRegister(s, r) && !Live(s, r.user, r.service)
    requires r.listens && Port(s, r).Some? && WellFormed(AfterRegister(s, r))
    ensures var s' := AfterRegister(s, r);
      && Candidates(s', user, service, instance) ==
           (if user == r.user && service == r.service && instance == r.instance
            then map[r.addr := r.sid]
            else Candidates(s, user, service, instance))
      && PortOf(s', user, service) ==
           (if user == r.user && service == r.service then Port(s, r) else PortOf(s, user, service))
  {
    StartShape(s, r);
    var s' := AfterRegister(s, r);
    if Live(s, user, service) {
      var fe := s.frontendMap[user][service];
      assert s'.frontendMap[user][service] == fe && s'.frontends[fe] == s.frontends[fe];
    }
  }

  lemma AdmissibleRoutes(s: State, r: Request, user: Bytes, service: Bytes, instance: Bytes)
    requires Inv(s) && WellFormed(s) && CanRegister(s, r) && Admissible(s, r)
    ensures var s' := AfterRegister(s, r);
      && WellFormed(s')
      && (!Enrolls(s, r) ==> s' == s)
      && Candidates(s', user, service, instance) ==
           (if Enrolls(s, r) && user == r.user && service == r.service && instance == r.instance
            then Candidates(s, user, service, instance)[r.addr := r.sid]
            else Candidates(s, user, service, instance))
      && PortOf(s', user, service) ==
           (if Enrolls(s, r) && user == r.user && service == r.service then Port(s, r) else PortOf(s, user, service))
  {
    RegisterWellFormed(s, r);
    if Live(s, r.user, r.service) {
      assert FrontendOk(s, s.frontendMap[r.user][r.service]);
      assert Enrolls(s, r) && Port(s, r) == PortOf(s, r.user, r.service);
      ReuseShape(s, r);
      ReuseRoutes(s, r, user, service, instance);
    } else if !r.listens {
      FailedListenRestores(s, r);
    } else if Port(s, r).Some? {
      StartRoutes(s, r, user, service, instance);
    }
  }

  lemma AdmissiblePort(s: State, r: Request)
    requires Inv(s) && WellFormed(s) && CanRegister(s, r) && Admissible(s, r)
    ensures var live := Live(s, r.user, r.service);
      && (Enrolls(s, r) <==> live || (r.listens && (r.port != 0 || s.pool.free != {})))
      && (Enrolls(s, r) ==>
            Port(s, r) == if live then PortOf(s, r.user, r.service)
                          else if r.port != 0 then Some(r.port) else Some(r.pick))
  {
    if Live(s, r.user, r.service) {
      assert FrontendOk(s, s.frontendMap[r.user][r.service]);
    }
  }

  /** An admissible registration is enrolled exactly when its service is live, or the listen
      succeeds and a port was named or is free; otherwise it changes nothing. Enrolled, it
      adds exactly its own session to the candidates of its instance, and the service is
      reachable on its current port, the named one or the one the pool picked. */
  lemma RegisterRoutes(s: State, r: Request, user: Bytes, service: Bytes, instance: Bytes)
    requires Inv(s) && WellFormed(s) && CanRegister(s, r) && Admissible(s, r)
    ensures var s', live := AfterRegister(s, r), Live(s, r.user, r.service);
      var enrolled := live || (r.listens && (r.port != 0 || s.pool.free != {}));
      && WellFormed(s')
      && (enrolled <==> r.sid in s'.sessions) && (!enrolled ==> s' == s)
      && Candidates(s', user, service, instance) ==
           (if enrolled && user == r.user && service == r.service && instance == r.instance
            then Candidates(s, user, service, instance)[r.addr := r.sid]
            else Candidates(s, user, service, instance))
      && PortOf(s', user, service) ==
           (if !enrolled || live || user != r.user || service != r.service then PortOf(s, user, service)
            else if r.port != 0 then Some(r.port) else Some(r.pick))
  {
    AdmissibleRoutes(s, r, user, service, instance);
    AdmissiblePort(s, r);
    RegisterOutcome(s, r);
    if Live(s, r.user, r.service) {
      assert FrontendOk(s, s.frontendMap[r.user][r.service]);
    }
  }

  lemma RoutesWithout(s: State, c: map<Bytes, SessionId>, s': State, c': map<Bytes, SessionId>, sid: SessionId,
                      user: Bytes, service: Bytes, instance: Bytes)
    requires Routes(s, c, user, service, instance) && Routes(s', c', user, service, instance)
    requires sid in s.sessions && s'.sessions == s.sessions - {sid}
    ensures c' == if RegisteredFor(s, sid, user, service, instance) then c - {s.sessions[sid].addr} else c
  {
    forall addr | addr in c ensures addr in c' <==> c[addr] != sid {
      if c[addr] != sid {
        assert RegisteredFor(s', c[addr], user, service, instance);
      } else if addr in c' {
        assert RegisteredFor(s, c'[addr], user, service, instance);
      }
    }
    forall addr | addr in c' ensures addr in c && c'[addr] == c[addr] {
      assert RegisteredFor(s, c'[addr], user, service, instance);
    }
  }

  /** A deregistration takes exactly its own session from the candidates, and the service
      off its port exactly when that was the service's last session. */
  lemma DeregisterRoutes(s: State, sid: SessionId, user: Bytes, service: Bytes, instance: Bytes)
    requires Inv(s) && WellFormed(s) && sid in s.sessions
    ensures var s', t := AfterDeregister(s, sid), s.sessions[sid];
      && WellFormed(s')
      && Candidates(s', user, service, instance) ==
           (if RegisteredFor(s, sid, user, service, instance)
            then Candidates(s, user, service, instance) - {t.addr}
            else Candidates(s, user, service, instance))
      && PortOf(s', user, service) ==
           (if && user == t.user && service == t.service
               && forall u :: u in s.sessions && u != sid ==> s.sessions[u].frontend != t.frontend
            then None else PortOf(s, user, service))
  {
    var s', t := AfterDeregister(s, sid), s.sessions[sid];
    assert SessionOk(s, sid) && FrontendOk(s, t.frontend);
    DeregisterShape(s, sid);
    DeregisterKeepsInv(s, sid);
    InvWellFormed(s');
    RoutingExact(s, user, service, instance);
    RoutingExact(s', user, service, instance);
    RoutesWithout(s, Candidates(s, user, service, instance), s', Candidates(s', user, service, instance), sid,
                  user, service, instance);
    LastSession(s', t.frontend);
    PortWithout(s, s', sid, user, service);
  }

  lemma PortWithout(s: State, s': State, sid: SessionId, user: Bytes, service: Bytes)
    requires WellFormed(s) && WellFormed(s') && sid in s.sessions && Deregistered(s, sid, s')
    ensures var t := s.sessions[sid];
      PortOf(s', user, service) ==
      if user == t.user && service == t.service && s'.frontends[t.frontend].backends == map[]
      then None else PortOf(s, user, service)
  {
  }

  /** A frontend has a backend exactly when some session is in it. */
  lemma LastSession(s: State, fe: nat)
    requires Inv(s) && fe < |s.frontends|
    ensures s.frontends[fe].backends == map[] <==> forall u :: u in s.sessions ==> s.sessions[u].frontend != fe
  {
    var b := s.frontends[fe].backends;
    if b == map[] {
      forall u | u in s.sessions ensures s.sessions[u].frontend != fe {
        assert SessionOk(s, u);
      }
    } else {
      assert FrontendOk(s, fe);
      var inst :| inst in b;
      assert b[inst] != map[];
      var addr :| addr in b[inst];
      assert InSlot(s.frontends[fe], inst, addr, b[inst][addr]);
    }
  }

  /** order lists the keys of c once each: an iteration over the Go map. */
  ghost predicate Enumerates(order: seq<Bytes>, c: map<Bytes, SessionId>) {
    && (forall k :: k in order <==> k in c)
    && (forall i, j :: 0 <= i < j < |order| ==> order[i] != order[j])
  }

  lemma EmptyOrder(order: seq<Bytes>)
    requires Enumerates(order, map[])
    ensures order == []
  {
    EnumerationSize(order, {});
  }

  /** Counting the index down along the iteration: pkg/muxtunnel.go:670-682. */
  method PickBackend(c: map<Bytes, SessionId>, order: seq<Bytes>, index: nat) returns (r: Option<SessionId>)
    requires Enumerates(order, c) && index < |order|
    ensures r == if order[index] == [] then None else Some(c[order[index]])
  {
    var i := index;
    var id: Bytes := [];
    var session := 0;
    var n := 0;
    while n < |order|
      invariant n <= |order|
      invariant i == index - n
      invariant n <= index
    {
      id := order[n];
      assert id in c;
      session := c[id];
      if i == 0 {
        break;
      }
      i := i - 1;
      n := n + 1;
    }
    r := if id == [] then None else Some(session);
  }

  /** For every iteration order, index -> backend is a bijection from [0, count) to the
      sessions registered for the instance: a uniform index gives a uniform backend. */
  lemma PickIsBijection(s: State, user: Bytes, service: Bytes, instance: Bytes, order: seq<Bytes>)
    requires Inv(s) && WellFormed(s)
    requires Enumerates(order, Candidates(s, user, service, instance))
    ensures |order| == |Candidates(s, user, service, instance)|
    ensures forall i :: 0 <= i < |order| ==> order[i] in Candidates(s, user, service, instance)
    ensures var c := Candidates(s, user, service, instance);
      && (forall i :: 0 <= i < |order| ==> RegisteredFor(s, c[order[i]], user, service, instance))
      && (forall i, j :: 0 <= i < j < |order| ==> c[order[i]] != c[order[j]])
      && (forall sid :: RegisteredFor(s, sid, user, service, instance) ==>
            exists i :: 0 <= i < |order| && c[order[i]] == sid)
  {
    var c := Candidates(s, user, service, instance);
    RoutingExact(s, user, service, instance);
    EnumerationSize(order, c.Keys);
    assert forall i :: 0 <= i < |order| ==> order[i] in c;
    forall sid | RegisteredFor(s, sid, user, service, instance)
      ensures exists i :: 0 <= i < |order| && c[order[i]] == sid
    {
      assert s.sessions[sid].addr in c;
      var i :| 0 <= i < |order| && order[i] == s.sessions[sid].addr;
    }
  }

  lemma {:induction false} EnumerationSize(order: seq<Bytes>, keys: set<Bytes>)
    requires forall k :: k in order <==> k in keys
    requires forall i, j :: 0 <= i < j < |order| ==> order[i] != order[j]
    ensures |order| == |keys|
  {
    if order != [] {
      assert order[0] in keys;
      EnumerationSize(order[1..], keys - {order[0]});
    }
  }
}
