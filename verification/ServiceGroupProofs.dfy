/** What one reconcileTunnels call does to a service's tunnels. */
module ServiceGroupProofs {
  import opened GoBytes
  import opened ServiceGroup

  /** A client after the loop over ports: the open ones of the service under a key of a
      port get the service's addresses and the last such port's target port. */
  function Touched(c: Client, name: Bytes, ips: seq<Bytes>, entries: seq<Entry>): Client {
    if !c.closed && c.service == name && c.entry.key in Keys(entries)
    then c.(addresses := ips, targetPort := Last(entries, c.entry.key).port.targetPort) else c
  }

  /** Other services keep their tunnels; this one keeps its own. */
  ghost predicate Extends(g0: Group, g: Group, name: Bytes) {
    && g.endpoint == g0.endpoint && g.services == g0.services
    && |g0.clients| <= |g.clients|
    && (forall n :: n != name ==> (n in g.tunnels <==> n in g0.tunnels))
    && (forall n :: n != name && n in g.tunnels ==> g.tunnels[n] == g0.tunnels[n])
    && name in g.tunnels
    && (forall k :: k in TunnelMap(g0, name) ==> k in g.tunnels[name] && g.tunnels[name][k] == TunnelMap(g0, name)[k])
  }

  ghost predicate OldClients(g0: Group, g: Group, name: Bytes, ips: seq<Bytes>, entries: seq<Entry>)
    requires |g0.clients| <= |g.clients|
  {
    forall id :: 0 <= id < |g0.clients| ==> g.clients[id] == Touched(g0.clients[id], name, ips, entries)
  }

  ghost predicate NewClients(g0: Group, g: Group, name: Bytes, ips: seq<Bytes>, entries: seq<Entry>)
    requires name in g.tunnels && WellFormed(g)
  {
    && (forall id :: |g0.clients| <= id < |g.clients| ==> !g.clients[id].closed)
    && (forall k :: k in g.tunnels[name] && k !in TunnelMap(g0, name) ==>
          k in Keys(entries) && g.tunnels[name][k] >= |g0.clients|
          && g.clients[g.tunnels[name][k]] == Wanted(name, ips, entries, k))
  }

  /** g is g0 after the loop over the entries. */
  ghost predicate Applied(g0: Group, g: Group, name: Bytes, ips: seq<Bytes>, entries: seq<Entry>) {
    && Owned(g) && WellFormed(g) && Extends(g0, g, name)
    && g.tunnels[name].Keys == TunnelMap(g0, name).Keys + Keys(entries)
    && OldClients(g0, g, name, ips, entries)
    && NewClients(g0, g, name, ips, entries)
  }

  lemma TouchedSnoc(c: Client, name: Bytes, ips: seq<Bytes>, entries: seq<Entry>, e: Entry)
    ensures Touched(c, name, ips, entries + [e]) ==
      if !c.closed && c.service == name && c.entry.key == e.key
      then Touched(c, name, ips, entries).(addresses := ips, targetPort := e.port.targetPort)
      else Touched(c, name, ips, entries)
  {
  }

  lemma WantedSnoc(name: Bytes, ips: seq<Bytes>, entries: seq<Entry>, e: Entry, k: Bytes)
    requires k in Keys(entries) || k == e.key
    ensures k in Keys(entries + [e])
    ensures Wanted(name, ips, entries + [e], k) ==
      if k !in Keys(entries) then Client(name, e, e.port.targetPort, ips, false)
      else if k == e.key then Wanted(name, ips, entries, k).(targetPort := e.port.targetPort)
      else Wanted(name, ips, entries, k)
  {
  }

  /** The client in slot k of g is the one that was there in g0. */
  lemma SlotIs(g0: Group, g: Group, name: Bytes, ips: seq<Bytes>, entries: seq<Entry>, k: Bytes, id: nat)
    requires Owned(g0) && Applied(g0, g, name, ips, entries) && id < |g0.clients| && k in g.tunnels[name]
    ensures g.tunnels[name][k] == id <==>
      !g0.clients[id].closed && g0.clients[id].service == name && g0.clients[id].entry.key == k
  {
  }

  lemma UpdateKeepsOwned(g: Group, id: nat, ips: seq<Bytes>, targetPort: int)
    requires Owned(g) && id < |g.clients|
    ensures Owned(UpdateClient(g, id, ips, targetPort))
  {
  }

  lemma MakeKeepsOwned(g: Group, name: Bytes, e: Entry)
    requires Owned(g) && e.key !in TunnelMap(g, name)
    ensures Owned(MakeClient(g, name, e))
  {
    var g' := MakeClient(g, name, e);
    forall i | 0 <= i < |g'.clients| && !g'.clients[i].closed ensures Stored(g', i) {
      if i < |g.clients| {
        assert Stored(g, i);
      }
    }
  }

  lemma UpdateOld(g0: Group, g: Group, name: Bytes, ips: seq<Bytes>, entries: seq<Entry>, e: Entry)
    requires Applied(g0, g, name, ips, entries) && Owned(g0) && e.key in g.tunnels[name]
    ensures OldClients(g0, UpdateClient(g, g.tunnels[name][e.key], ips, e.port.targetPort), name, ips, entries + [e])
  {
    var g' := UpdateClient(g, g.tunnels[name][e.key], ips, e.port.targetPort);
    forall id | 0 <= id < |g0.clients| ensures g'.clients[id] == Touched(g0.clients[id], name, ips, entries + [e]) {
      SlotIs(g0, g, name, ips, entries, e.key, id);
      TouchedSnoc(g0.clients[id], name, ips, entries, e);
    }
  }

  lemma UpdateNew(g0: Group, g: Group, name: Bytes, ips: seq<Bytes>, entries: seq<Entry>, e: Entry)
    requires Applied(g0, g, name, ips, entries) && e.key in g.tunnels[name]
    ensures NewClients(g0, UpdateClient(g, g.tunnels[name][e.key], ips, e.port.targetPort), name, ips, entries + [e])
  {
    var g' := UpdateClient(g, g.tunnels[name][e.key], ips, e.port.targetPort);
    forall k | k in g'.tunnels[name] && k !in TunnelMap(g0, name)
      ensures k in Keys(entries + [e]) && g'.tunnels[name][k] >= |g0.clients|
              && g'.clients[g'.tunnels[name][k]] == Wanted(name, ips, entries + [e], k)
    {
      WantedSnoc(name, ips, entries, e, k);
    }
  }

  lemma KeysOfSnoc(entries: seq<Entry>, e: Entry)
    ensures Keys(entries + [e]) == Keys(entries) + {e.key}
  {
  }

  /** The loop body when the key already has a tunnel... */
  lemma UpdateApplies(g0: Group, g: Group, name: Bytes, ips: seq<Bytes>, entries: seq<Entry>, e: Entry)
    requires Applied(g0, g, name, ips, entries) && Owned(g0)
    requires e.key in g.tunnels[name]
    ensures Applied(g0, UpdateClient(g, g.tunnels[name][e.key], ips, e.port.targetPort), name, ips, entries + [e])
  {
    UpdateKeepsOwned(g, g.tunnels[name][e.key], ips, e.port.targetPort);
    UpdateOld(g0, g, name, ips, entries, e);
    UpdateNew(g0, g, name, ips, entries, e);
    KeysOfSnoc(entries, e);
  }

  lemma MakeOld(g0: Group, g: Group, name: Bytes, ips: seq<Bytes>, entries: seq<Entry>, e: Entry)
    requires Applied(g0, g, name, ips, entries) && Owned(g0) && e.key !in g.tunnels[name]
    ensures var g' := UpdateClient(MakeClient(g, name, e), |g.clients|, ips, e.port.targetPort);
      OldClients(g0, g', name, ips, entries + [e])
  {
    var g' := UpdateClient(MakeClient(g, name, e), |g.clients|, ips, e.port.targetPort);
    forall id | 0 <= id < |g0.clients| ensures g'.clients[id] == Touched(g0.clients[id], name, ips, entries + [e]) {
      TouchedSnoc(g0.clients[id], name, ips, entries, e);
      if !g0.clients[id].closed {
        assert Stored(g0, id);
      }
    }
  }

  lemma MakeNew(g0: Group, g: Group, name: Bytes, ips: seq<Bytes>, entries: seq<Entry>, e: Entry)
    requires Applied(g0, g, name, ips, entries) && e.key !in g.tunnels[name]
    ensures var g' := UpdateClient(MakeClient(g, name, e), |g.clients|, ips, e.port.targetPort);
      WellFormed(g') && NewClients(g0, g', name, ips, entries + [e])
  {
    var g' := UpdateClient(MakeClient(g, name, e), |g.clients|, ips, e.port.targetPort);
    forall k | k in g'.tunnels[name] && k !in TunnelMap(g0, name)
      ensures k in Keys(entries + [e]) && g'.tunnels[name][k] >= |g0.clients|
              && g'.clients[g'.tunnels[name][k]] == Wanted(name, ips, entries + [e], k)
    {
      WantedSnoc(name, ips, entries, e, k);
    }
  }

  lemma MakeExtends(g0: Group, g: Group, name: Bytes, ips: seq<Bytes>, e: Entry)
    requires Extends(g0, g, name) && e.key !in g.tunnels[name]
    ensures var g' := UpdateClient(MakeClient(g, name, e), |g.clients|, ips, e.port.targetPort);
      Extends(g0, g', name) && g'.tunnels[name].Keys == g.tunnels[name].Keys + {e.key}
  {
  }

  /** ...and when it has none. */
  lemma MakeApplies(g0: Group, g: Group, name: Bytes, ips: seq<Bytes>, entries: seq<Entry>, e: Entry)
    requires Applied(g0, g, name, ips, entries) && Owned(g0)
    requires e.key !in g.tunnels[name]
    ensures var g' := UpdateClient(MakeClient(g, name, e), |g.clients|, ips, e.port.targetPort);
      Applied(g0, g', name, ips, entries + [e])
  {
    MakeKeepsOwned(g, name, e);
    UpdateKeepsOwned(MakeClient(g, name, e), |g.clients|, ips, e.port.targetPort);
    MakeExtends(g0, g, name, ips, e);
    MakeOld(g0, g, name, ips, entries, e);
    MakeNew(g0, g, name, ips, entries, e);
    KeysOfSnoc(entries, e);
  }

  lemma {:induction false} AddPortsApplies(g0: Group, name: Bytes, ips: seq<Bytes>, entries: seq<Entry>)
    requires Owned(g0) && WellFormed(g0) && g0.endpoint.Usable? && name in g0.tunnels
    ensures Applied(g0, AddPorts(g0, name, ips, entries), name, ips, entries)
  {
    if entries != [] {
      var n := |entries| - 1;
      AddPortsApplies(g0, name, ips, entries[..n]);
      var g := AddPorts(g0, name, ips, entries[..n]);
      assert entries == entries[..n] + [entries[n]];
      AddPortApplies(g0, g, name, ips, entries[..n], entries[n]);
    }
  }

  lemma AddPortApplies(g0: Group, g: Group, name: Bytes, ips: seq<Bytes>, entries: seq<Entry>, e: Entry)
    requires Owned(g0) && WellFormed(g) && g.endpoint.Usable? && Applied(g0, g, name, ips, entries)
    ensures Applied(g0, AddPort(g, name, ips, e), name, ips, entries + [e])
  {
    if e.key in g.tunnels[name] {
      UpdateApplies(g0, g, name, ips, entries, e);
    } else {
      MakeApplies(g0, g, name, ips, entries, e);
    }
  }

  /** Without a usable endpoint no client is ever made. */
  lemma {:induction false} AddPortsUnusable(g: Group, name: Bytes, ips: seq<Bytes>, entries: seq<Entry>)
    requires WellFormed(g) && !g.endpoint.Usable? && TunnelMap(g, name) == map[]
    ensures AddPorts(g, name, ips, entries) == g
  {
    if entries != [] {
      AddPortsUnusable(g, name, ips, entries[..|entries| - 1]);
    }
  }

  /** Closing the tunnels under keys closes exactly the open clients in those slots. */
  lemma CloseClients(g: Group, name: Bytes, keys: set<Bytes>, id: nat)
    requires Owned(g) && id < |g.clients|
    ensures CloseKeys(g, name, keys).clients[id] ==
      if !g.clients[id].closed && g.clients[id].service == name && g.clients[id].entry.key in keys
      then g.clients[id].(closed := true) else g.clients[id]
  {
  }

  function AfterClose(c: Client, name: Bytes, keys: set<Bytes>): Client {
    if !c.closed && c.service == name && c.entry.key in keys then c.(closed := true) else c
  }

  /** g' is g with the tunnels of a service under some keys closed and forgotten. */
  ghost predicate Closes(g: Group, name: Bytes, keys: set<Bytes>, g': Group) {
    && g'.endpoint == g.endpoint && g'.services == g.services && g'.tunnels.Keys == g.tunnels.Keys
    && (forall n :: n in g.tunnels ==> g'.tunnels[n] == if n == name then g.tunnels[n] - keys else g.tunnels[n])
    && |g'.clients| == |g.clients|
    && (forall id :: 0 <= id < |g.clients| ==> g'.clients[id] == AfterClose(g.clients[id], name, keys))
  }

  lemma CloseKeysCloses(g: Group, name: Bytes, keys: set<Bytes>)
    requires Owned(g)
    ensures Closes(g, name, keys, CloseKeys(g, name, keys))
  {
    var g' := CloseKeys(g, name, keys);
    forall id | 0 <= id < |g.clients| ensures g'.clients[id] == AfterClose(g.clients[id], name, keys) {
      CloseClients(g, name, keys, id);
    }
  }

  lemma ClosesKeepsOwned(g: Group, name: Bytes, keys: set<Bytes>, g': Group)
    requires Owned(g) && Closes(g, name, keys, g')
    ensures Owned(g')
  {
    forall i | 0 <= i < |g'.clients| && !g'.clients[i].closed ensures Stored(g', i) {
      assert g'.clients[i] == AfterClose(g.clients[i], name, keys);
      assert Stored(g, i);
    }
    forall n, k | n in g'.tunnels && k in g'.tunnels[n]
      ensures g'.tunnels[n][k] < |g'.clients| && g'.clients[g'.tunnels[n][k]] == g.clients[g'.tunnels[n][k]]
    {
      assert n in g.tunnels && k in g.tunnels[n] && g'.tunnels[n][k] == g.tunnels[n][k];
    }
  }

  lemma CloseNothing(g: Group, name: Bytes, keys: set<Bytes>)
    requires keys !! TunnelMap(g, name).Keys
    ensures CloseKeys(g, name, keys) == g
  {
    var g' := CloseKeys(g, name, keys);
    assert name in g.tunnels ==> g.tunnels[name] - keys == g.tunnels[name];
    assert g'.tunnels == g.tunnels;
    assert g'.clients == g.clients;
  }

  // ---- reconcileTunnels, case by case ----

  /** A service whose tunnels are as its spec says is left exactly as it is: nothing is
      made, nothing closed, not even with several ports under one key. */
  lemma ReconcileKnown(g: Group, name: Bytes, spec: Spec)
    requires Inv(g) && WellFormed(g) && Exact(g, name, spec)
    ensures Reconcile(g, name, spec, false) == g
  {
    assert Prepare(g, name) == g;
    if g.endpoint.Usable? {
      AddPortsApplies(g, name, spec.ips, Entries(spec.ports));
      var g' := AddPorts(g, name, spec.ips, Entries(spec.ports));
      KnownUnchanged(g, g', name, spec);
    } else {
      AddPortsUnusable(g, name, spec.ips, Entries(spec.ports));
    }
    CloseNothing(g, name, SvcTunnelMap(g, name).Keys - Keys(Entries(spec.ports)));
  }

  /** A client made by the loop sits in a slot that was empty before. */
  lemma NewSlot(g0: Group, g: Group, name: Bytes, ips: seq<Bytes>, entries: seq<Entry>, id: nat)
    requires Owned(g0) && Applied(g0, g, name, ips, entries) && |g0.clients| <= id < |g.clients|
    ensures g.clients[id].service == name
    ensures g.clients[id].entry.key in g.tunnels[name] && g.clients[id].entry.key !in TunnelMap(g0, name)
  {
  }

  lemma KnownTunnels(g: Group, g': Group, name: Bytes)
    requires Extends(g, g', name) && name in g.tunnels && g'.tunnels[name].Keys == g.tunnels[name].Keys
    ensures g'.tunnels == g.tunnels
  {
    assert g'.tunnels[name] == g.tunnels[name];
  }

  lemma KnownUnchanged(g: Group, g': Group, name: Bytes, spec: Spec)
    requires Owned(g) && g.endpoint.Usable? && Exact(g, name, spec)
    requires Applied(g, g', name, spec.ips, Entries(spec.ports))
    ensures g' == g
  {
    KnownTunnels(g, g', name);
    KnownClients(g, g', name, spec);
    if |g.clients| < |g'.clients| {
      NewSlot(g, g', name, spec.ips, Entries(spec.ports), |g.clients|);
    }
    assert g'.clients == g.clients;
  }

  lemma KnownClients(g: Group, g': Group, name: Bytes, spec: Spec)
    requires Owned(g) && g.endpoint.Usable? && Exact(g, name, spec) && |g.clients| <= |g'.clients|
    requires OldClients(g, g', name, spec.ips, Entries(spec.ports))
    ensures forall id :: 0 <= id < |g.clients| ==> g'.clients[id] == g.clients[id]
  {
  }

  /** No client made so far is touched. */
  ghost predicate KeepsClients(g: Group, g': Group) {
    |g.clients| <= |g'.clients| && forall id :: 0 <= id < |g.clients| ==> g'.clients[id] == g.clients[id]
  }

  /** A service that was not there gets exactly the tunnels its spec calls for. */
  lemma ReconcileNew(g: Group, name: Bytes, spec: Spec)
    requires Inv(g) && WellFormed(g) && name !in g.services
    ensures var g' := Reconcile(g.(services := g.services[name := spec]), name, spec, false);
      Inv(g') && g'.services == g.services[name := spec] && KeepsClients(g, g')
  {
    var g1 := g.(services := g.services[name := spec]);
    var g0 := Prepare(g1, name);
    var entries := Entries(spec.ports);
    assert TunnelMap(g0, name) == map[];
    PrepareKeepsOwned(g1, name);
    var g' := AddPorts(g0, name, spec.ips, entries);
    if g.endpoint.Usable? {
      AddPortsApplies(g0, name, spec.ips, entries);
      NewIsExact(g, g0, g', name, spec);
    } else {
      AddPortsUnusable(g0, name, spec.ips, entries);
      UnusableIsExact(g, g0, name, spec);
    }
    CloseNothing(g', name, SvcTunnelMap(g0, name).Keys - Keys(entries));
  }

  lemma PrepareKeepsOwned(g: Group, name: Bytes)
    requires Owned(g) && WellFormed(g)
    ensures Owned(Prepare(g, name)) && WellFormed(Prepare(g, name))
    ensures forall n :: TunnelMap(Prepare(g, name), n) == TunnelMap(g, n)
  {
  }

  lemma NewKeepsClients(g0: Group, g': Group, name: Bytes, ips: seq<Bytes>, entries: seq<Entry>)
    requires Owned(g0) && Applied(g0, g', name, ips, entries) && TunnelMap(g0, name) == map[]
    ensures KeepsClients(g0, g')
  {
    forall id | 0 <= id < |g0.clients| ensures g'.clients[id] == g0.clients[id] {
      if !g0.clients[id].closed {
        assert Stored(g0, id);
      }
    }
  }

  /** A service whose tunnels and clients are as they were is as exact as it was. */
  lemma KeptIsExact(g: Group, g': Group, n: Bytes, spec: Spec)
    requires Owned(g) && Owned(g') && KeepsClients(g, g') && g'.endpoint == g.endpoint && Exact(g, n, spec)
    requires TunnelMap(g', n) == TunnelMap(g, n) && (n in g.tunnels ==> n in g'.tunnels)
    ensures Exact(g', n, spec)
  {
  }

  lemma NewIsExact(g: Group, g0: Group, g': Group, name: Bytes, spec: Spec)
    requires Inv(g) && name !in g.services && g.endpoint.Usable? && Owned(g0)
    requires g0 == Prepare(g.(services := g.services[name := spec]), name)
    requires Applied(g0, g', name, spec.ips, Entries(spec.ports)) && TunnelMap(g0, name) == map[]
    ensures Inv(g') && g'.services == g.services[name := spec] && KeepsClients(g, g')
  {
    NewKeepsClients(g0, g', name, spec.ips, Entries(spec.ports));
    forall n | n in g'.services ensures Exact(g', n, g'.services[n]) {
      if n != name {
        KeptIsExact(g, g', n, g.services[n]);
      }
    }
  }

  lemma UnusableIsExact(g: Group, g0: Group, name: Bytes, spec: Spec)
    requires Inv(g) && name !in g.services && !g.endpoint.Usable? && Owned(g0)
    requires g0 == Prepare(g.(services := g.services[name := spec]), name)
    ensures Inv(g0) && g0.services == g.services[name := spec]
  {
  }

  /** A service that is gone loses all its tunnels, and no other service loses any. */
  lemma ReconcileGone(g: Group, name: Bytes)
    requires Inv(g) && WellFormed(g) && name in g.services
    ensures var g' := Reconcile(g, name, g.services[name], true);
      && Inv(g'.(services := g'.services - {name})) && g'.services == g.services
      && Closes(g, name, TunnelMap(g, name).Keys, g')
  {
    assert Exact(g, name, g.services[name]);
    assert Prepare(g, name) == g;
    var keys := TunnelMap(g, name).Keys;
    assert SvcTunnelMap(g, name).Keys == keys;
    var g1 := CloseKeys(g, name, keys);
    CloseKeysCloses(g, name, keys);
    ClosesKeepsOwned(g, name, keys, g1);
    GoneIsExact(g, g1, g1.(services := g1.services - {name}), name);
  }

  lemma SpecsKeepOwned(g: Group, specs: map<Bytes, Spec>)
    requires Owned(g)
    ensures Owned(g.(services := specs))
  {
  }

  lemma GoneHasNone(g: Group, g1: Group, name: Bytes, n: Bytes)
    requires Closes(g, name, TunnelMap(g, name).Keys, g1)
    requires n == name || TunnelMap(g, n) == map[]
    ensures TunnelMap(g1, n) == map[]
  {
  }

  lemma GoneKeepsExact(g: Group, g1: Group, name: Bytes, n: Bytes)
    requires Inv(g) && Owned(g1) && Closes(g, name, TunnelMap(g, name).Keys, g1)
    requires n in g.services && n != name
    ensures Owned(g1.(services := g1.services - {name}))
    ensures Exact(g1.(services := g1.services - {name}), n, g.services[n])
  {
    SpecsKeepOwned(g1, g1.services - {name});
    ClosesKeepsExact(g, g1.(services := g1.services - {name}), name, n);
  }

  lemma GoneIsExact(g: Group, g1: Group, g': Group, name: Bytes)
    requires Inv(g) && name in g.services && Owned(g1) && Closes(g, name, TunnelMap(g, name).Keys, g1)
    requires g' == g1.(services := g1.services - {name})
    ensures Inv(g')
  {
    SpecsKeepOwned(g1, g1.services - {name});
    forall n | n in g'.services ensures Exact(g', n, g'.services[n]) {
      GoneKeepsExact(g, g1, name, n);
    }
    forall n | n !in g'.services ensures TunnelMap(g', n) == map[] {
      GoneHasNone(g, g1, name, n);
      assert TunnelMap(g', n) == TunnelMap(g1, n);
    }
  }

  /** Closing the tunnels of one service leaves those of another as they were. */
  lemma ClosesKeepsExact(g: Group, g': Group, name: Bytes, n: Bytes)
    requires Owned(g) && Owned(g') && n != name && n in g.services && Exact(g, n, g.services[n])
    requires Closes(g, name, TunnelMap(g, name).Keys, g'.(services := g.services))
    ensures Exact(g', n, g.services[n])
  {
  }
}
