/** The reconciler's objects, updated in place as pkg/muxtunnelClientServiceGroup.go does,
    proved against the functions of ServiceGroup. */
module TunnelGroup {
  import opened GoBytes
  import opened Naming
  import SG = ServiceGroup
  import opened ServiceGroupProofs
  import opened ServiceGroupRuns
  import opened ServiceGroupOrder

  /** The part of MuxTunnelClient (pkg/muxtunnelClient.go) that its owner sees. */
  class MuxTunnelClient {
    const serviceName: Bytes
    const frontendPort: int
    const sshWrap: bool
    const tlsWrap: bool
    var targetPort: int
    var targetAddresses: seq<Bytes>
    var closed: bool
    ghost const id: nat

    constructor (serviceName: Bytes, p: SG.PortData, ghost id: nat)
      ensures this.serviceName == serviceName && this.id == id
      ensures frontendPort == p.port && sshWrap == p.sshWrap && tlsWrap == p.tlsWrap
      ensures targetPort == p.targetPort && targetAddresses == [] && !closed
    {
      this.serviceName, this.id := serviceName, id;
      frontendPort, sshWrap, tlsWrap := p.port, p.sshWrap, p.tlsWrap;
      targetPort, targetAddresses, closed := p.targetPort, [], false;
    }

    /** Closing closeCh a second time would panic. */
    method Close()
      requires !closed
      modifies this`closed
      ensures closed
    {
      closed := true;
    }

    method UpdateTargetAddresses(addrs: seq<Bytes>)
      modifies this`targetAddresses
      ensures targetAddresses == addrs
    {
      targetAddresses := addrs;
    }

    method UpdateTargetPort(port: int)
      modifies this`targetPort
      ensures targetPort == port
    {
      targetPort := port;
    }
  }

  type Tunnels = map<Bytes, map<Bytes, MuxTunnelClient>>

  /** tm holds, under the same keys, the objects of the clients m names by index. */
  ghost predicate SameTunnels(tm: Tunnels, m: map<Bytes, map<Bytes, nat>>, made: seq<MuxTunnelClient>) {
    && tm.Keys == m.Keys
    && (forall n :: n in tm ==> tm[n].Keys == m[n].Keys)
    && (forall n, k :: n in m && k in m[n] ==> m[n][k] < |made| && tm[n][k] == made[m[n][k]])
  }

  lemma SameTunnelsAdd(
    tm: Tunnels, m: map<Bytes, map<Bytes, nat>>, made: seq<MuxTunnelClient>, name: Bytes, key: Bytes,
    t: MuxTunnelClient)
    requires SameTunnels(tm, m, made) && name in tm
    ensures var inner: map<Bytes, nat> := m[name][key := |made|];
      SameTunnels(tm[name := tm[name][key := t]], m[name := inner], made + [t])
  {
  }

  lemma SameTunnelsRemove(
    tm: Tunnels, m: map<Bytes, map<Bytes, nat>>, made: seq<MuxTunnelClient>, name: Bytes, key: Bytes)
    requires SameTunnels(tm, m, made) && name in tm
    ensures SameTunnels(tm[name := tm[name] - {key}], m[name := m[name] - {key}], made)
  {
  }

  function CloseAt(g: SG.Group, name: Bytes, key: Bytes): SG.Group
    requires SG.WellFormed(g) && name in g.tunnels && key in g.tunnels[name]
  {
    var id := g.tunnels[name][key];
    g.(tunnels := g.tunnels[name := g.tunnels[name] - {key}],
       clients := g.clients[id := g.clients[id].(closed := true)])
  }

  lemma CloseAtCloses(g: SG.Group, name: Bytes, key: Bytes)
    requires SG.Owned(g) && SG.WellFormed(g) && name in g.tunnels && key in g.tunnels[name]
    ensures Closes(g, name, {key}, CloseAt(g, name, key))
  {
  }

  lemma ClosesTwice(g: SG.Group, g1: SG.Group, g2: SG.Group, name: Bytes, done: set<Bytes>, key: Bytes)
    requires Closes(g, name, done, g1) && Closes(g1, name, {key}, g2)
    ensures Closes(g, name, done + {key}, g2)
  {
  }

  /** The closing loop under way from g to m: of keys, those in left are still to be closed. */
  ghost predicate Closing(g: SG.Group, name: Bytes, keys: set<Bytes>, left: set<Bytes>, m: SG.Group) {
    && Closes(g, name, keys - left, m)
    && left <= keys && left <= SG.TunnelMap(m, name).Keys
  }

  lemma CloseMoreMap(g: SG.Group, name: Bytes, key: Bytes)
    requires SG.WellFormed(g) && name in g.tunnels && key in g.tunnels[name]
    ensures SG.TunnelMap(CloseAt(g, name, key), name).Keys == SG.TunnelMap(g, name).Keys - {key}
  {
  }

  /** Closing one more tunnel in the course of closing many. */
  lemma CloseMore(g: SG.Group, m: SG.Group, name: Bytes, keys: set<Bytes>, left: set<Bytes>, key: Bytes)
    requires SG.Owned(g) && SG.WellFormed(m) && Closing(g, name, keys, left, m) && key in left
    ensures name in m.tunnels && key in m.tunnels[name] && !m.clients[m.tunnels[name][key]].closed
    ensures Closing(g, name, keys, left - {key}, CloseAt(m, name, key))
  {
    ClosesKeepsOwned(g, name, keys - left, m);
    CloseAtCloses(m, name, key);
    CloseMoreMap(m, name, key);
    assert keys - left + {key} == keys - (left - {key});
    ClosesTwice(g, m, CloseAt(m, name, key), name, keys - left, key);
  }

  /** A relation that fixes its result: what CloseKeys computes. */
  lemma ClosesIsCloseKeys(g: SG.Group, name: Bytes, keys: set<Bytes>, g': SG.Group)
    requires SG.Owned(g) && Closes(g, name, keys, g')
    ensures g' == SG.CloseKeys(g, name, keys)
  {
    var h := SG.CloseKeys(g, name, keys);
    CloseKeysCloses(g, name, keys);
    assert g'.tunnels == h.tunnels;
    assert g'.clients == h.clients;
  }

  lemma {:induction false} AddPortsKeepsOwned(g: SG.Group, name: Bytes, ips: seq<Bytes>, entries: seq<SG.Entry>)
    requires SG.Owned(g) && SG.WellFormed(g)
    ensures SG.Owned(SG.AddPorts(g, name, ips, entries))
  {
    if entries != [] {
      var prefix, e := entries[..|entries| - 1], entries[|entries| - 1];
      AddPortsKeepsOwned(g, name, ips, prefix);
      AddPortKeepsOwned(SG.AddPorts(g, name, ips, prefix), name, ips, e);
    }
  }

  lemma AddPortKeepsOwned(g: SG.Group, name: Bytes, ips: seq<Bytes>, e: SG.Entry)
    requires SG.Owned(g) && SG.WellFormed(g)
    ensures SG.Owned(SG.AddPort(g, name, ips, e))
  {
    if e.key in SG.SvcTunnelMap(g, name) {
      UpdateKeepsOwned(g, SG.SvcTunnelMap(g, name)[e.key], ips, e.port.targetPort);
    } else if g.endpoint.Usable? {
      MakeKeepsOwned(g, name, e);
      UpdateKeepsOwned(SG.MakeClient(g, name, e), |g.clients|, ips, e.port.targetPort);
    }
  }

  lemma ClosingStart(g: SG.Group, name: Bytes, keys: set<Bytes>)
    requires keys <= SG.TunnelMap(g, name).Keys
    ensures Closing(g, name, keys, keys, g)
  {
  }

  lemma ClosingEnd(g: SG.Group, name: Bytes, keys: set<Bytes>, m: SG.Group)
    requires SG.Owned(g) && Closing(g, name, keys, {}, m)
    ensures m == SG.CloseKeys(g, name, keys)
  {
    assert keys - {} == keys;
    ClosesIsCloseKeys(g, name, keys, m);
  }

  /** The loop over ports under way from g to m, after i of them; before are the keys at
      its start and gone those not met since. */
  ghost predicate Adding(
    g: SG.Group, name: Bytes, ips: seq<Bytes>, ports: seq<SG.PortData>, i: nat, before: set<Bytes>, gone: set<Bytes>,
    m: SG.Group) {
    && SG.WellFormed(g) && i <= |ports|
    && m == SG.AddPorts(g, name, ips, SG.Entries(ports)[..i])
    && gone == before - SG.Keys(SG.Entries(ports)[..i]) && before <= SG.SvcTunnelMap(m, name).Keys
  }

  lemma AddingStart(g: SG.Group, name: Bytes, ips: seq<Bytes>, ports: seq<SG.PortData>, before: set<Bytes>)
    requires SG.WellFormed(g) && before == SG.SvcTunnelMap(g, name).Keys
    ensures Adding(g, name, ips, ports, 0, before, before, g)
  {
  }

  lemma AddingEnd(
    g: SG.Group, name: Bytes, ips: seq<Bytes>, ports: seq<SG.PortData>, before: set<Bytes>, gone: set<Bytes>,
    m: SG.Group)
    requires Adding(g, name, ips, ports, |ports|, before, gone, m)
    ensures m == SG.AddPorts(g, name, ips, SG.Entries(ports))
    ensures gone == before - SG.Keys(SG.Entries(ports)) && gone <= SG.TunnelMap(m, name).Keys
  {
    assert SG.Entries(ports)[..|ports|] == SG.Entries(ports);
  }

  lemma AddMoreKeys(entries: seq<SG.Entry>, i: nat)
    requires i < |entries|
    ensures SG.Keys(entries[..i + 1]) == SG.Keys(entries[..i]) + {entries[i].key}
  {
    assert entries[..i + 1][..i] == entries[..i];
  }

  lemma AddMoreGroup(g: SG.Group, name: Bytes, ips: seq<Bytes>, entries: seq<SG.Entry>, i: nat)
    requires SG.WellFormed(g) && i < |entries|
    ensures SG.AddPorts(g, name, ips, entries[..i + 1])
         == SG.AddPort(SG.AddPorts(g, name, ips, entries[..i]), name, ips, entries[i])
  {
    assert entries[..i + 1][..i] == entries[..i];
  }

  lemma AddMore(
    g: SG.Group, name: Bytes, ips: seq<Bytes>, ports: seq<SG.PortData>, i: nat, before: set<Bytes>, gone: set<Bytes>,
    m: SG.Group, e: SG.Entry)
    requires SG.WellFormed(m) && Adding(g, name, ips, ports, i, before, gone, m)
    requires i < |ports| && e == SG.Entry(Key(ports[i].protocol, ports[i].port), ports[i])
    ensures Adding(g, name, ips, ports, i + 1, before, gone - {e.key}, SG.AddPort(m, name, ips, e))
  {
    var entries := SG.Entries(ports);
    assert entries[i] == e;
    AddMoreKeys(entries, i);
    AddMoreGroup(g, name, ips, entries, i);
    AddPortGrows(m, name, ips, e);
    assert before - SG.Keys(entries[..i]) - {e.key} == before - (SG.Keys(entries[..i]) + {e.key});
  }

  lemma AddPortGrows(g: SG.Group, name: Bytes, ips: seq<Bytes>, e: SG.Entry)
    requires SG.WellFormed(g)
    ensures SG.SvcTunnelMap(g, name).Keys <= SG.SvcTunnelMap(SG.AddPort(g, name, ips, e), name).Keys
  {
  }

  // ---- whole calls ----

  lemma ListMore(keys: seq<Bytes>, all: set<Bytes>, left: set<Bytes>, k: Bytes)
    requires left <= all && Lists(keys, all - left) && k in left
    ensures Lists(keys + [k], all - (left - {k}))
  {
    ElementsSnoc(keys, k);
    assert all - left + {k} == all - (left - {k});
    forall i | 0 <= i < |keys| ensures keys[i] != k {
      assert keys[i] in SG.ElementsOf(keys);
    }
  }

  lemma YieldMore(m: map<Bytes, SG.Service>, keys: seq<Bytes>, left: set<Bytes>, k: Bytes)
    requires left <= m.Keys && Lists(keys, m.Keys - left) && k in left
    ensures Lists(keys + [k], m.Keys - (left - {k}))
    ensures Yielded(m, keys + [k]) == Yielded(m, keys) + [m[k]]
  {
    ListMore(keys, m.Keys, left, k);
  }

  /** The loop over the incoming services under way from g to m. */
  ghost predicate Upserting(g: SG.Group, order: seq<SG.Service>, srvGone: set<Bytes>, m: SG.Group) {
    && SG.WellFormed(g) && SG.Inv(m) && m == SG.UpsertAll(g, order)
    && srvGone == g.services.Keys - SG.Names(order) && g.services.Keys <= m.services.Keys
  }

  lemma UpsertMore(g: SG.Group, order: seq<SG.Service>, srvGone: set<Bytes>, m: SG.Group, n: SG.Service)
    requires SG.WellFormed(m) && Upserting(g, order, srvGone, m)
    ensures var gone' := if n.name in m.services then srvGone - {n.name} else srvGone;
      Upserting(g, order + [n], gone', SG.Upsert(m, n))
  {
    assert (order + [n])[..|order|] == order;
    UpsertExact(m, n);
  }

  lemma UpsertedMeans(g: SG.Group, order: seq<SG.Service>, srvGone: set<Bytes>, m: SG.Group)
    requires Upserting(g, order, srvGone, m)
    ensures SG.Inv(m) && m == SG.UpsertAll(g, order) && srvGone <= m.services.Keys
    ensures srvGone == g.services.Keys - SG.Names(order)
  {
  }

  /** The loop over the services that are gone under way from g to m. */
  ghost predicate Removing(g: SG.Group, gone: seq<Bytes>, left: set<Bytes>, m: SG.Group) {
    SG.WellFormed(g) && SG.Inv(m) && m == SG.RemoveAll(g, gone) && left <= m.services.Keys
  }

  lemma RemoveMore(g: SG.Group, gone: seq<Bytes>, left: set<Bytes>, m: SG.Group, name: Bytes)
    requires SG.WellFormed(m) && Removing(g, gone, left, m) && name in left
    ensures Removing(g, gone + [name], left - {name}, SG.Remove(m, name))
  {
    assert (gone + [name])[..|gone|] == gone;
    RemoveExact(m, name);
  }

  lemma ListsLeave(g: SG.Group, order: seq<SG.Service>, srvGone: set<Bytes>, gone: seq<Bytes>)
    requires srvGone == g.services.Keys - SG.Names(order) && Lists(gone, srvGone)
    ensures SG.Leaves(g, order, gone)
  {
  }

  class MuxTunnelClientServiceGroup {
    const apiEndpoint: SG.Endpoint
    var ServiceMap: map<Bytes, SG.Spec>
    var tunnels: Tunnels
    ghost var made: seq<MuxTunnelClient>  // every client ever made
    ghost var model: SG.Group

    ghost function Clients(): set<MuxTunnelClient>
      reads this
    {
      set t | t in made
    }

    ghost predicate Represents(t: MuxTunnelClient, i: nat)
      requires i < |model.clients|
      reads this, t
    {
      var c := model.clients[i];
      && t.id == i && t.serviceName == c.service
      && t.frontendPort == c.entry.port.port && t.sshWrap == c.entry.port.sshWrap && t.tlsWrap == c.entry.port.tlsWrap
      && t.targetPort == c.targetPort && t.targetAddresses == c.addresses && t.closed == c.closed
    }

    /** model is the abstract value of the maps and the clients. */
    ghost predicate Valid()
      reads this, made
    {
      && SG.WellFormed(model)
      && model.endpoint == apiEndpoint && model.services == ServiceMap
      && |made| == |model.clients|
      && (forall i :: 0 <= i < |made| ==> Represents(made[i], i))
      && SameTunnels(tunnels, model.tunnels, made)
    }

    constructor (apiEndpoint: SG.Endpoint)
      ensures Valid() && model == SG.New(apiEndpoint)
    {
      this.apiEndpoint := apiEndpoint;
      ServiceMap, tunnels := map[], map[];
      made, model := [], SG.New(apiEndpoint);
    }

    /** NewMuxTunnelClient and the storing of its client: lines 81-99. */
    method MakeClient(name: Bytes, key: Bytes, p: SG.PortData) returns (t: MuxTunnelClient?)
      requires Valid() && (apiEndpoint.Usable? ==> name in tunnels)
      modifies this`model, this`made, this`tunnels
      ensures Valid()
      ensures !apiEndpoint.Usable? ==> t == null && model == old(model) && made == old(made)
      ensures apiEndpoint.Usable? ==> t != null && fresh(t) && made == old(made) + [t] && t.id == |old(made)|
                                      && model == SG.MakeClient(old(model), name, SG.Entry(key, p))
    {
      if !apiEndpoint.Usable? {
        return null;
      }
      t := new MuxTunnelClient(name, p, |made|);
      ghost var before := made;
      assert forall i :: 0 <= i < |made| ==> Represents(made[i], i);
      SameTunnelsAdd(tunnels, model.tunnels, made, name, key, t);
      tunnels := tunnels[name := tunnels[name][key := t]];
      made := made + [t];
      model := SG.MakeClient(model, name, SG.Entry(key, p));
      forall i | 0 <= i < |made| ensures Represents(made[i], i) {
        if i < |before| {
          assert made[i] == before[i];
        }
      }
    }

    /** Lines 103-113: only what differs is updated. */
    method UpdateClient(t: MuxTunnelClient, ips: seq<Bytes>, targetPort: int)
      requires Valid() && t in made
      modifies this`model, t`targetAddresses, t`targetPort
      ensures Valid() && t.id < |old(model).clients| && model == SG.UpdateClient(old(model), t.id, ips, targetPort)
    {
      assert forall i :: 0 <= i < |made| ==> Represents(made[i], i);
      if ips != t.targetAddresses {
        t.UpdateTargetAddresses(ips);
      }
      if t.targetPort != targetPort {
        t.UpdateTargetPort(targetPort);
      }
      model := SG.UpdateClient(model, t.id, ips, targetPort);
      assert forall i :: 0 <= i < |made| ==> Represents(made[i], i);
    }

    /** One round of the loop over the ports: lines 75-114. handled is false where the code
        continues without taking the key off portsGone. */
    method AddPort(name: Bytes, ips: seq<Bytes>, p: SG.PortData) returns (handled: bool)
      requires Valid() && (apiEndpoint.Usable? ==> name in tunnels)
      modifies this`model, this`made, this`tunnels, Clients()
      ensures Valid() && model == SG.AddPort(old(model), name, ips, SG.Entry(Key(p.protocol, p.port), p))
      ensures fresh(Clients() - old(Clients()))
      ensures forall n :: n in old(tunnels) ==> n in tunnels
      ensures !handled ==> Key(p.protocol, p.port) !in SG.SvcTunnelMap(old(model), name)
    {
      var k := Key(p.protocol, p.port);
      var t: MuxTunnelClient?;
      if !apiEndpoint.Unset? && name in tunnels && k in tunnels[name] {
        t := tunnels[name][k];
        assert t == made[model.tunnels[name][k]];
        assert Represents(t, model.tunnels[name][k]);
      } else {
        t := MakeClient(name, k, p);
        if t == null {
          return false;
        }
        assert made[|made| - 1] == t;
      }
      UpdateClient(t, ips, p.targetPort);
      handled := true;
    }

    method CloseClient(t: MuxTunnelClient)
      requires Valid() && t in made && !t.closed
      modifies this`model, t`closed
      ensures Valid() && t.id < |old(model).clients|
      ensures model == old(model).(clients := old(model).clients[t.id := old(model).clients[t.id].(closed := true)])
    {
      assert forall i :: 0 <= i < |made| ==> Represents(made[i], i);
      t.Close();
      model := model.(clients := model.clients[t.id := model.clients[t.id].(closed := true)]);
      assert forall i :: 0 <= i < |made| ==> Represents(made[i], i);
    }

    method Forget(name: Bytes, key: Bytes)
      requires Valid() && name in tunnels
      modifies this`model, this`tunnels
      ensures Valid() && name in old(model).tunnels
      ensures model == old(model).(tunnels := old(model).tunnels[name := old(model).tunnels[name] - {key}])
      ensures tunnels == old(tunnels)[name := old(tunnels)[name] - {key}]
    {
      SameTunnelsRemove(tunnels, model.tunnels, made, name, key);
      assert forall i :: 0 <= i < |made| ==> Represents(made[i], i);
      tunnels := tunnels[name := tunnels[name] - {key}];
      model := model.(tunnels := model.tunnels[name := model.tunnels[name] - {key}]);
      assert forall i :: 0 <= i < |made| ==> Represents(made[i], i);
    }

    /** Lines 119-121. */
    method CloseTunnel(name: Bytes, key: Bytes)
      requires Valid() && name in tunnels && key in tunnels[name]
      requires !model.clients[model.tunnels[name][key]].closed
      modifies this`model, this`tunnels, Clients()
      ensures Valid() && model == CloseAt(old(model), name, key)
      ensures tunnels == old(tunnels)[name := old(tunnels)[name] - {key}]
    {
      var t := tunnels[name][key];
      ghost var id := model.tunnels[name][key];
      assert t == made[id] && Represents(made[id], id);
      CloseClient(t);
      Forget(name, key);
    }

    /** One round of the closing loop. */
    method CloseNext(name: Bytes, key: Bytes, ghost g: SG.Group, ghost keys: set<Bytes>, ghost left: set<Bytes>)
      requires SG.Owned(g) && Valid() && Closing(g, name, keys, left, model) && key in left
      modifies this`model, this`tunnels, Clients()
      ensures Valid() && Closing(g, name, keys, left - {key}, model)
    {
      CloseMore(g, model, name, keys, left, key);
      CloseTunnel(name, key);
    }

    /** Lines 118-122, in whatever order the keys come. */
    method CloseTunnels(name: Bytes, portsGone: set<Bytes>)
      requires Valid() && SG.Owned(model) && portsGone <= SG.TunnelMap(model, name).Keys
      modifies this`model, this`tunnels, Clients()
      ensures Valid() && model == SG.CloseKeys(old(model), name, portsGone)
    {
      ghost var g := model;
      var left := portsGone;
      ClosingStart(g, name, portsGone);
      while left != {}
        invariant Valid() && Closing(g, name, portsGone, left, model)
        decreases left
      {
        var k :| k in left;
        CloseNext(name, k, g, portsGone, left);
        left := left - {k};
      }
      ClosingEnd(g, name, portsGone, model);
    }

    /** One round of the loop over the ports. */
    method AddNext(name: Bytes, ips: seq<Bytes>, ports: seq<SG.PortData>, i: nat, gone: set<Bytes>,
                   ghost g: SG.Group, ghost before: set<Bytes>)
      returns (gone': set<Bytes>)
      requires Valid() && (apiEndpoint.Usable? ==> name in tunnels)
      requires i < |ports| && Adding(g, name, ips, ports, i, before, gone, model)
      modifies this`model, this`made, this`tunnels, Clients()
      ensures Valid() && (name in old(tunnels) ==> name in tunnels)
      ensures Adding(g, name, ips, ports, i + 1, before, gone', model)
      ensures fresh(Clients() - old(Clients()))
    {
      ghost var m := model;
      var k := Key(ports[i].protocol, ports[i].port);
      var handled := AddPort(name, ips, ports[i]);
      AddMore(g, name, ips, ports, i, before, gone, m, SG.Entry(k, ports[i]));
      gone' := if handled then gone - {k} else gone;
      assert !handled ==> k !in gone;
    }

    /** The loop over the ports: lines 75-114. */
    method AddPorts(
      name: Bytes, ips: seq<Bytes>, ports: seq<SG.PortData>, before: set<Bytes>) returns (portsGone: set<Bytes>)
      requires Valid() && (apiEndpoint.Usable? ==> name in tunnels) && before == SG.SvcTunnelMap(model, name).Keys
      modifies this`model, this`made, this`tunnels, Clients()
      ensures Valid() && model == SG.AddPorts(old(model), name, ips, SG.Entries(ports))
      ensures portsGone == before - SG.Keys(SG.Entries(ports)) && portsGone <= SG.TunnelMap(model, name).Keys
      ensures fresh(Clients() - old(Clients()))
    {
      ghost var g := model;
      portsGone := before;
      AddingStart(g, name, ips, ports, before);
      for i := 0 to |ports|
        invariant Valid() && (apiEndpoint.Usable? ==> name in tunnels)
        invariant Adding(g, name, ips, ports, i, before, portsGone, model)
        invariant fresh(Clients() - old(Clients()))
      {
        portsGone := AddNext(name, ips, ports, i, portsGone, g, before);
      }
      AddingEnd(g, name, ips, ports, before, portsGone, model);
    }

    /** Lines 59-72. */
    method Prepare(name: Bytes) returns (portsGone: set<Bytes>)
      requires Valid() && SG.Owned(model)
      modifies this`model, this`tunnels
      ensures Valid() && SG.Owned(model) && model == SG.Prepare(old(model), name)
      ensures (apiEndpoint.Usable? ==> name in tunnels) && portsGone == SG.SvcTunnelMap(model, name).Keys
    {
      PrepareKeepsOwned(model, name);
      if !apiEndpoint.Unset? && name !in tunnels {
        tunnels := tunnels[name := map[]];
        model := SG.Prepare(model, name);
        assert forall i :: 0 <= i < |made| ==> Represents(made[i], i);
      }
      portsGone := if !apiEndpoint.Unset? && name in tunnels then tunnels[name].Keys else {};
    }

    /** Lines 58-123. */
    method ReconcileTunnels(name: Bytes, spec: SG.Spec, deleted: bool)
      requires Valid() && SG.Owned(model)
      modifies this`model, this`made, this`tunnels, Clients()
      ensures Valid() && model == SG.Reconcile(old(model), name, spec, deleted)
      ensures fresh(Clients() - old(Clients()))
    {
      var portsGone := Prepare(name);
      if !deleted {
        AddPortsKeepsOwned(model, name, spec.ips, SG.Entries(spec.ports));
        portsGone := AddPorts(name, spec.ips, spec.ports, portsGone);
      }
      CloseTunnels(name, portsGone);
    }

    /** One incoming service: lines 136-155. */
    method UpsertService(n: SG.Service) returns (known: bool)
      requires Valid() && SG.Inv(model)
      modifies this`model, this`made, this`tunnels, this`ServiceMap, Clients()
      ensures Valid() && SG.Inv(model) && model == SG.Upsert(old(model), n)
      ensures known == (n.name in old(model).services)
      ensures fresh(Clients() - old(Clients()))
    {
      UpsertExact(model, n);
      known := n.name in ServiceMap;
      if !known {
        StoreService(n);
      }
      ReconcileTunnels(n.name, ServiceMap[n.name], false);
    }

    method StoreService(n: SG.Service)
      requires Valid() && SG.Owned(model)
      modifies this`model, this`ServiceMap
      ensures Valid() && SG.Owned(model)
      ensures model == old(model).(services := old(model).services[n.name := SG.Spec(n.ports, n.ips)])
    {
      SpecsKeepOwned(model, ServiceMap[n.name := SG.Spec(n.ports, n.ips)]);
      ServiceMap := ServiceMap[n.name := SG.Spec(n.ports, n.ips)];
      model := model.(services := ServiceMap);
      assert forall i :: 0 <= i < |made| ==> Represents(made[i], i);
    }

    /** One service that is gone: lines 160-163. */
    method RemoveService(name: Bytes)
      requires Valid() && SG.Inv(model) && name in ServiceMap
      modifies this`model, this`made, this`tunnels, this`ServiceMap, Clients()
      ensures Valid() && SG.Inv(model) && model == SG.Remove(old(model), name)
      ensures fresh(Clients() - old(Clients()))
    {
      RemoveExact(model, name);
      ReconcileTunnels(name, ServiceMap[name], true);
      ServiceMap := ServiceMap - {name};
      model := model.(services := ServiceMap);
      assert forall i :: 0 <= i < |made| ==> Represents(made[i], i);
    }

    method UpsertNext(n: SG.Service, srvGone: set<Bytes>, ghost g: SG.Group, ghost order: seq<SG.Service>)
      returns (srvGone': set<Bytes>)
      requires Valid() && Upserting(g, order, srvGone, model)
      modifies this`model, this`made, this`tunnels, this`ServiceMap, Clients()
      ensures Valid() && Upserting(g, order + [n], srvGone', model)
      ensures fresh(Clients() - old(Clients()))
    {
      ghost var m := model;
      var known := UpsertService(n);
      UpsertMore(g, order, srvGone, m, n);
      srvGone' := if known then srvGone - {n.name} else srvGone;
    }

    method RemoveNext(name: Bytes, ghost g: SG.Group, ghost gone: seq<Bytes>, ghost left: set<Bytes>)
      requires Valid() && Removing(g, gone, left, model) && name in left
      modifies this`model, this`made, this`tunnels, this`ServiceMap, Clients()
      ensures Valid() && Removing(g, gone + [name], left - {name}, model)
      ensures fresh(Clients() - old(Clients()))
    {
      ghost var m := model;
      RemoveService(name);
      RemoveMore(g, gone, left, m, name);
    }

    /** Lines 135-156; keys is the order in which the map yields the services. */
    method UpsertServices(newservices: map<Bytes, SG.Service>) returns (srvGone: set<Bytes>, ghost keys: seq<Bytes>)
      requires Valid() && SG.Inv(model)
      modifies this`model, this`made, this`tunnels, this`ServiceMap, Clients()
      ensures Valid() && Lists(keys, newservices.Keys)
      ensures Upserting(old(model), Yielded(newservices, keys), srvGone, model)
      ensures fresh(Clients() - old(Clients()))
    {
      ghost var g := model;
      srvGone := ServiceMap.Keys;
      keys := [];
      var left := newservices.Keys;
      while left != {}
        invariant Valid() && left <= newservices.Keys && Lists(keys, newservices.Keys - left)
        invariant Upserting(g, Yielded(newservices, keys), srvGone, model)
        invariant fresh(Clients() - old(Clients()))
        decreases left
      {
        var k :| k in left;
        YieldMore(newservices, keys, left, k);
        srvGone := UpsertNext(newservices[k], srvGone, g, Yielded(newservices, keys));
        keys := keys + [k];
        left := left - {k};
      }
      assert newservices.Keys - left == newservices.Keys;
    }

    /** Lines 158-164. */
    method RemoveServices(srvGone: set<Bytes>) returns (ghost gone: seq<Bytes>)
      requires Valid() && SG.Inv(model) && srvGone <= ServiceMap.Keys
      modifies this`model, this`made, this`tunnels, this`ServiceMap, Clients()
      ensures Valid() && Lists(gone, srvGone) && model == SG.RemoveAll(old(model), gone)
      ensures fresh(Clients() - old(Clients()))
    {
      ghost var g := model;
      gone := [];
      var left := srvGone;
      while left != {}
        invariant Valid() && left <= srvGone && Lists(gone, srvGone - left)
        invariant Removing(g, gone, left, model)
        invariant fresh(Clients() - old(Clients()))
        decreases left
      {
        var name :| name in left;
        ListMore(gone, srvGone, left, name);
        RemoveNext(name, g, gone, left);
        gone := gone + [name];
        left := left - {name};
      }
      assert srvGone - left == srvGone;
    }

    /** Lines 126-167: whatever the iteration orders of its two loops. */
    method ReconcileServiceGroup(
      newservices: map<Bytes, SG.Service>) returns (ghost keys: seq<Bytes>, ghost gone: seq<Bytes>)
      requires Valid() && SG.Inv(model)
      modifies this`model, this`made, this`tunnels, this`ServiceMap, Clients()
      ensures Valid() && SG.Inv(model)
      ensures Lists(keys, newservices.Keys) && SG.Leaves(old(model), Yielded(newservices, keys), gone)
      ensures model == SG.ReconcileGroup(old(model), Yielded(newservices, keys), gone)
      ensures fresh(Clients() - old(Clients()))
    {
      ghost var g := model;
      var srvGone;
      srvGone, keys := UpsertServices(newservices);
      UpsertedMeans(g, Yielded(newservices, keys), srvGone, model);
      gone := RemoveServices(srvGone);
      ListsLeave(g, Yielded(newservices, keys), srvGone, gone);
      RemoveAllInv(SG.UpsertAll(g, Yielded(newservices, keys)), gone);
    }
  }
}
