/** The server's objects, updated in place as pkg/muxtunnel.go does, proved against the
    step functions of Registry. */
module TunnelService {
  import opened GoBytes
  import opened Pool
  import R = Registry
  import opened RegistryInvariant
  import opened Routing

  /** muxfrontendRuntimeData. */
  class FrontendRuntime {
    const serviceName: Bytes
    const port: int
    var listening: bool
    var backendConnMap: map<Bytes, map<Bytes, R.SessionId>>
    ghost const id: nat

    constructor (serviceName: Bytes, port: int, ghost id: nat)
      ensures this.serviceName == serviceName && this.port == port && this.id == id
      ensures listening && backendConnMap == map[]
    {
      this.serviceName, this.port, this.id := serviceName, port, id;
      listening, backendConnMap := true, map[];
    }

    /** pkg/muxtunnel.go:346-350. */
    method Add(instanceName: Bytes, addr: Bytes, sid: R.SessionId)
      modifies this`backendConnMap
      ensures backendConnMap == R.AddBackend(old(backendConnMap), instanceName, addr, sid)
    {
      if instanceName !in backendConnMap {
        backendConnMap := backendConnMap[instanceName := map[]];
      }
      var sessions: map<Bytes, R.SessionId> := backendConnMap[instanceName][addr := sid];
      backendConnMap := backendConnMap[instanceName := sessions];
    }

    /** pkg/muxtunnel.go:374-377. */
    method Remove(instanceName: Bytes, addr: Bytes)
      modifies this`backendConnMap
      ensures backendConnMap == R.RemoveBackend(old(backendConnMap), instanceName, addr)
    {
      if instanceName in backendConnMap {
        var sessions: map<Bytes, R.SessionId> := backendConnMap[instanceName] - {addr};
        backendConnMap := backendConnMap[instanceName := sessions];
      }
      if instanceName !in backendConnMap || backendConnMap[instanceName] == map[] {
        backendConnMap := backendConnMap - {instanceName};
      }
    }
  }

  type Frontends = map<Bytes, map<Bytes, FrontendRuntime>>

  /** fm holds, under the same keys, the objects of the frontends m names by index. */
  ghost predicate SameMap(fm: Frontends, m: map<Bytes, map<Bytes, nat>>, made: seq<FrontendRuntime>) {
    && fm.Keys == m.Keys
    && (forall u :: u in fm ==> fm[u].Keys == m[u].Keys)
    && (forall u, v :: u in m && v in m[u] ==> m[u][v] < |made| && fm[u][v] == made[m[u][v]])
  }

  lemma SameMapAdd(
    fm: Frontends, m: map<Bytes, map<Bytes, nat>>, made: seq<FrontendRuntime>, user: Bytes, service: Bytes,
    f: FrontendRuntime)
    requires SameMap(fm, m, made) && user in fm
    ensures var services: map<Bytes, nat> := m[user][service := |made|];
      SameMap(fm[user := fm[user][service := f]], m[user := services], made + [f])
  {
  }

  lemma SameMapRemove(
    fm: Frontends, m: map<Bytes, map<Bytes, nat>>, made: seq<FrontendRuntime>, user: Bytes, service: Bytes)
    requires SameMap(fm, m, made) && user in fm
    ensures SameMap(fm[user := fm[user] - {service}], m[user := m[user] - {service}], made)
  {
  }

  /** The registry after pkg/muxtunnel.go:327-344, for the port the pool has settled. */
  function Installed(s: R.State, r: R.Request, port: int): R.State
    requires R.WellFormed(s) && r.user in s.frontendMap
  {
    if R.Live(s, r.user, r.service) && s.frontends[s.frontendMap[r.user][r.service]].port == port then s
    else
      var s1 := if R.Live(s, r.user, r.service) then R.CloseListener(s, s.frontendMap[r.user][r.service]) else s;
      if r.listens then R.StartFrontend(s1, r, port) else s1.(pool := AfterReturn(s1.pool, port))
  }

  /** Whether there is a frontend on port after that. */
  predicate Serves(s: R.State, r: R.Request, port: int)
    requires R.WellFormed(s) && r.user in s.frontendMap
  {
    r.listens || (R.Live(s, r.user, r.service) && s.frontends[s.frontendMap[r.user][r.service]].port == port)
  }

  /** ...and after pkg/muxtunnel.go:327-350. */
  function Completed(s: R.State, r: R.Request, port: int): R.State
    requires R.WellFormed(s) && r.user in s.frontendMap
  {
    var s' := Installed(s, r, port);
    if Serves(s, r, port) then R.Enroll(s', r, s'.frontendMap[r.user][r.service]) else s'
  }

  /** A registration takes a port, installs the frontend and enrolls the session. */
  lemma RegisterInParts(s: R.State, r: R.Request)
    requires R.WellFormed(s) && r.user in s.frontendMap && R.Port(s, r).Some?
    ensures var s1, port := s.(pool := AfterGet(s.pool, R.Wanted(s, r), r.pick)), R.Port(s, r).value;
      && R.AfterRegister(s, r) == Completed(s1, r, port)
      && (R.Enrolls(s, r) <==> Serves(s1, r, port))
  {
  }

  lemma RespondKeeps(s: R.State, sid: R.SessionId, phase: R.Phase)
    requires R.WellFormed(s) && sid in s.sessions
    ensures Inv(s) ==> Inv(R.WithPhase(s, sid, phase))
    ensures R.WellFormed(R.WithPhase(s, sid, phase)) && forall user, service, instance ::
      Candidates(R.WithPhase(s, sid, phase), user, service, instance) == Candidates(s, user, service, instance)
  {
    if Inv(s) {
      PhaseKeepsInv(s, sid, phase);
    }
  }

  class MuxTunnelService {
    const frontendPortPool: PoolInts
    var frontendMap: map<Bytes, map<Bytes, FrontendRuntime>>
    ghost var made: seq<FrontendRuntime>  // every frontend ever made
    ghost var model: R.State

    ghost predicate Represents(f: FrontendRuntime, i: nat)
      requires i < |model.frontends|
      reads this, f
    {
      var m := model.frontends[i];
      && f.id == i
      && f.serviceName == m.service && f.port == m.port
      && f.listening == m.listening && f.backendConnMap == m.backends
    }

    /** model is the abstract value of the maps, the frontends and the pool. */
    ghost predicate Valid()
      reads this, frontendPortPool, made
    {
      && R.WellFormed(model)
      && frontendPortPool.Valid() && frontendPortPool.View() == model.pool
      && |made| == |model.frontends|
      && (forall i :: 0 <= i < |made| ==> Represents(made[i], i))
      && SameMap(frontendMap, model.frontendMap, made)
    }

    constructor (users: set<Bytes>, dynport: int, dynportcount: int)
      ensures Valid() && fresh(frontendPortPool)
      ensures model == R.Init(users, Range(dynport, dynportcount))
    {
      var pool := new PoolInts.ForRange(dynport, dynportcount);
      frontendPortPool := pool;
      frontendMap := map u | u in users :: map[];
      made := [];
      model := R.Init(users, Range(dynport, dynportcount));
    }

    method TakePort(v: int) returns (got: Option<int>)
      requires Valid()
      modifies this`model, frontendPortPool
      ensures Valid()
      ensures got.Some? ==> PickOk(old(model.pool), v, got.value)
      ensures got == HandsOut(old(model.pool), v, if got.Some? then got.value else 0)
      ensures model == old(model).(pool := AfterGet(old(model.pool), v, if got.Some? then got.value else 0))
    {
      got := frontendPortPool.GetElement(v);
      model := model.(pool := frontendPortPool.View());
      assert forall i :: 0 <= i < |made| ==> Represents(made[i], i);
    }

    method ReturnPort(v: int)
      requires Valid()
      modifies this`model, frontendPortPool
      ensures Valid() && model == old(model).(pool := AfterReturn(old(model.pool), v))
    {
      frontendPortPool.ReturnElement(v);
      model := model.(pool := frontendPortPool.View());
      assert forall i :: 0 <= i < |made| ==> Represents(made[i], i);
    }

    method CloseListener(val: FrontendRuntime)
      requires Valid() && val in made
      modifies this`model, val`listening
      ensures Valid() && val.id < |old(model).frontends| && model == R.CloseListener(old(model), val.id)
    {
      assert forall i :: 0 <= i < |made| ==> Represents(made[i], i);
      val.listening := false;
      model := R.CloseListener(model, val.id);
      assert forall i :: 0 <= i < |made| ==> Represents(made[i], i);
    }

    /** startFrontend after a successful net.Listen, with the map update of its caller. */
    method StartFrontend(
      userID: Bytes, serviceName: Bytes, port: int, ghost r: R.Request) returns (val: FrontendRuntime)
      requires Valid() && userID in frontendMap && userID == r.user && serviceName == r.service
      modifies this`model, this`made, this`frontendMap
      ensures Valid() && fresh(val) && made == old(made) + [val] && val.id == |old(made)|
      ensures model == R.StartFrontend(old(model), r, port)
    {
      val := new FrontendRuntime(serviceName, port, |made|);
      ghost var before := made;
      SameMapAdd(frontendMap, model.frontendMap, made, userID, serviceName, val);
      assert forall i :: 0 <= i < |made| ==> Represents(made[i], i);
      frontendMap := frontendMap[userID := frontendMap[userID][serviceName := val]];
      made := made + [val];
      model := R.StartFrontend(model, r, port);
      forall i | 0 <= i < |made| ensures Represents(made[i], i) {
        if i < |before| {
          assert made[i] == before[i];
        }
      }
    }

    method Enroll(val: FrontendRuntime, instanceName: Bytes, addr: Bytes, sid: R.SessionId, ghost r: R.Request)
      requires Valid() && val in made
      requires instanceName == r.instance && addr == r.addr && sid == r.sid
      modifies this`model, val`backendConnMap
      ensures Valid() && val.id < |old(model).frontends| && model == R.Enroll(old(model), r, val.id)
    {
      assert forall i :: 0 <= i < |made| ==> Represents(made[i], i);
      val.Add(instanceName, addr, sid);
      model := R.Enroll(model, r, val.id);
      assert forall i :: 0 <= i < |made| ==> Represents(made[i], i);
    }

    /** pkg/muxtunnel.go:303-325: the current frontend, and the port or None for an
        exhausted pool. */
    method SettlePort(sid: R.SessionId, userID: Bytes, serviceName: Bytes, instanceName: Bytes, addr: Bytes,
                      requested: int, listens: bool)
      returns (current: FrontendRuntime?, settled: Option<int>, ghost r: R.Request)
      requires Valid() && userID in frontendMap
      modifies this`model, frontendPortPool
      ensures Valid()
      ensures r == R.Request(sid, userID, serviceName, instanceName, addr, requested, r.pick, listens)
      ensures PickOk(old(model.pool), R.Wanted(old(model), r), r.pick)
      ensures settled == R.Port(old(model), r)
      ensures var explicit := if requested == 0 && current != null then current.port else requested;
        && (settled.None? <==> explicit == 0 && old(model).pool.free == {})
        && (settled.Some? ==> settled.value == if explicit == 0 then r.pick else explicit)
      ensures model == old(model).(pool := AfterGet(old(model.pool), R.Wanted(old(model), r), r.pick))
      ensures current == null <==> serviceName !in frontendMap[userID]
      ensures current != null ==> current == frontendMap[userID][serviceName]
    {
      current := null;
      var port := requested;
      if serviceName in frontendMap[userID] {
        current := frontendMap[userID][serviceName];
        assert current == made[model.frontendMap[userID][serviceName]];
        assert Represents(current, model.frontendMap[userID][serviceName]);
      }
      if current != null && port == 0 {
        port := current.port;
      }
      var got := TakePort(port);
      ghost var pick := if got.Some? then got.value else 0;
      r := R.Request(sid, userID, serviceName, instanceName, addr, requested, pick, listens);
      if port == 0 {
        if got.None? {
          return current, None, r;
        }
        port := got.value;
      }
      settled := Some(port);
    }

    /** pkg/muxtunnel.go:327-344: keep the frontend, or replace it by one on port. */
    method Install(
      current: FrontendRuntime?, userID: Bytes, serviceName: Bytes, port: int, listens: bool, ghost r: R.Request)
      returns (val: FrontendRuntime?)
      requires Valid() && userID in frontendMap && userID == r.user && serviceName == r.service && listens == r.listens
      requires current == null <==> serviceName !in frontendMap[userID]
      requires current != null ==> current == frontendMap[userID][serviceName]
      modifies this, frontendPortPool, made
      ensures Valid() && model == Installed(old(model), r, port)
      ensures val != null ==> val in old(made) || fresh(val)
      ensures val == null <==> !listens && (current == null || current.port != port)
      ensures val != null ==> val in made && R.Live(model, userID, serviceName)
                              && val.id == model.frontendMap[userID][serviceName]
    {
      val := current;
      if val != null {
        assert val == made[model.frontendMap[userID][serviceName]];
        assert Represents(val, model.frontendMap[userID][serviceName]);
      }
      if val == null || val.port != port {
        if val != null && val.port != port {
          CloseListener(val);
        }
        if !listens {
          ReturnPort(port);
          return null;
        }
        val := StartFrontend(userID, serviceName, port, r);
      }
    }

    /** pkg/muxtunnel.go:302-351. On success the caller keeps the frontend and the port. */
    method Register(sid: R.SessionId, userID: Bytes, serviceName: Bytes, instanceName: Bytes, addr: Bytes,
                    requested: int, listens: bool)
      returns (val: FrontendRuntime?, port: int, ghost r: R.Request)
      requires Valid() && userID in frontendMap
      modifies this, frontendPortPool, made
      ensures Valid()
      ensures r == R.Request(sid, userID, serviceName, instanceName, addr, requested, r.pick, listens)
      ensures PickOk(old(model.pool), R.Wanted(old(model), r), r.pick)
      ensures model == R.AfterRegister(old(model), r)
      ensures val != null <==> R.Enrolls(old(model), r)
      ensures val != null ==> val in made && val.id == model.sessions[sid].frontend
                              && Some(port) == R.Port(old(model), r)
      ensures requested != 0 ==>
        && (val == null <==> !listens && (serviceName !in old(frontendMap)[userID]
                                          || old(frontendMap[userID][serviceName].port) != requested))
        && (val != null ==> port == requested)
      ensures requested == 0 && serviceName !in old(frontendMap)[userID] ==>
        && (val == null <==> !listens || old(model).pool.free == {})
        && (val != null ==> port in old(model).pool.free)
    {
      ghost var m0 := model;
      var current, settled;
      current, settled, r := SettlePort(sid, userID, serviceName, instanceName, addr, requested, listens);
      if settled.None? {
        return null, 0, r;
      }
      port := settled.value;
      RegisterInParts(m0, r);
      val := Complete(current, port, r, sid, userID, serviceName, instanceName, addr, listens);
    }

    /** pkg/muxtunnel.go:327-350. */
    method Complete(
      current: FrontendRuntime?, port: int, ghost r: R.Request,
      sid: R.SessionId, userID: Bytes, serviceName: Bytes, instanceName: Bytes, addr: Bytes, listens: bool)
      returns (val: FrontendRuntime?)
      requires Valid() && userID in frontendMap
      requires r == R.Request(sid, userID, serviceName, instanceName, addr, r.port, r.pick, listens)
      requires current == null <==> serviceName !in frontendMap[userID]
      requires current != null ==> current == frontendMap[userID][serviceName]
      modifies this, frontendPortPool, made
      ensures Valid() && model == Completed(old(model), r, port)
      ensures val != null <==> Serves(old(model), r, port)
      ensures val != null ==> val in made && sid in model.sessions && val.id == model.sessions[sid].frontend
    {
      assert current != null ==> Represents(current, model.frontendMap[userID][serviceName]);
      val := Install(current, userID, serviceName, port, listens, r);
      if val != null {
        Enroll(val, instanceName, addr, sid, r);
      }
    }

    /** The outcome of sendResponse; a failed one ends the goroutine then and there. Either
        way the session keeps its slot: connections are routed to it as before. */
    ghost method Respond(sid: R.SessionId, sent: bool)
      requires Valid() && sid in model.sessions
      modifies this`model
      ensures Valid() && model == R.WithPhase(old(model), sid, if sent then R.Waiting else R.Gone)
      ensures Inv(old(model)) ==> Inv(model)
      ensures R.WellFormed(old(model)) && forall user, service, instance ::
        Candidates(model, user, service, instance) == Candidates(old(model), user, service, instance)
    {
      RespondKeeps(model, sid, if sent then R.Waiting else R.Gone);
      model := R.WithPhase(model, sid, if sent then R.Waiting else R.Gone);
      assert forall i :: 0 <= i < |made| ==> Represents(made[i], i);
    }

    /** pkg/muxtunnel.go:373-385, with the locals the session's goroutine kept. */
    method Deregister(val: FrontendRuntime, userID: Bytes, serviceName: Bytes, instanceName: Bytes, addr: Bytes,
                      ghost sid: R.SessionId)
      requires Valid() && val in made && sid in model.sessions
      requires model.sessions[sid].(phase := R.Waiting)
            == R.Session(userID, serviceName, instanceName, addr, val.id, R.Waiting)
      modifies this`model, this`frontendMap, val
      ensures Valid() && model == R.AfterDeregister(old(model), sid)
    {
      ghost var m0 := model;
      assert forall i :: 0 <= i < |made| ==> Represents(made[i], i);
      val.Remove(instanceName, addr);
      if val.backendConnMap == map[] {
        val.listening := false;
        if userID in frontendMap {
          SameMapRemove(frontendMap, model.frontendMap, made, userID, serviceName);
          frontendMap := frontendMap[userID := frontendMap[userID] - {serviceName}];
        }
      }
      model := R.AfterDeregister(model, sid);
      forall i | 0 <= i < |made| ensures Represents(made[i], i) {
        assert i != val.id ==> made[i] != val;
      }
    }

    /** The acceptor goroutine after Accept has failed: pkg/muxtunnel.go:465-468, 511. */
    method AcceptorExit(val: FrontendRuntime)
      requires Valid() && val in made
      modifies this`model, frontendPortPool
      ensures Valid() && val.id < |old(model).frontends| && model == R.AfterAcceptorExit(old(model), val.id)
    {
      assert forall i :: 0 <= i < |made| ==> Represents(made[i], i);
      ghost var m0 := model;
      ReturnPort(val.port);
      model := R.AfterAcceptorExit(m0, val.id);
      assert forall i :: 0 <= i < |made| ==> Represents(made[i], i);
    }

    /** doProxy up to the pick: pkg/muxtunnel.go:641-683. order is the iteration order of
        the backend map, index the random number. */
    method ChooseBackend(userID: Bytes, serviceName: Bytes, instanceName: Bytes, order: seq<Bytes>, index: nat)
      returns (session: Option<R.SessionId>)
      requires Valid()
      requires Enumerates(order, Candidates(model, userID, serviceName, instanceName))
      requires order != [] ==> index < |order|
      ensures session == if order == [] || order[index] == [] then None
                         else Some(Candidates(model, userID, serviceName, instanceName)[order[index]])
    {
      if userID !in frontendMap || serviceName !in frontendMap[userID] {
        EmptyOrder(order);
        return None;
      }
      var frontend := frontendMap[userID][serviceName];
      assert Represents(frontend, model.frontendMap[userID][serviceName]);
      if instanceName !in frontend.backendConnMap {
        EmptyOrder(order);
        return None;
      }
      var bcm := frontend.backendConnMap[instanceName];
      if |bcm| == 0 {
        EmptyOrder(order);
        return None;
      }
      assert order != [] by {
        var k :| k in bcm;
        assert k in order;
      }
      session := PickBackend(bcm, order, index);
    }
  }
}
