/** One reconcileTunnels call from any state and for any service info: lines 58-123 of
    pkg/muxtunnelClientServiceGroup.go. The group's endpoint stands for that of the info. */
module ServiceGroupAny {
  import opened GoBytes
  import opened ServiceGroup
  import opened ServiceGroupProofs

  /** The tunnel keys a service ends up with. Without an endpoint nothing is looked at; with
      a malformed one nothing is made. */
  function KeysAfter(g: Group, name: Bytes, spec: Spec, deleted: bool): set<Bytes> {
    match g.endpoint
    case Unset => TunnelMap(g, name).Keys
    case Malformed => if deleted then {} else TunnelMap(g, name).Keys * Keys(Entries(spec.ports))
    case Usable => if deleted then {} else Keys(Entries(spec.ports))
  }

  /** The client a tunnel key ends up with: the one already there, re-aimed, or one made
      for the first port with that key. */
  function Aimed(g: Group, name: Bytes, spec: Spec, k: Bytes): Client
    requires WellFormed(g) && k in Keys(Entries(spec.ports))
  {
    var entries := Entries(spec.ports);
    if k in TunnelMap(g, name)
    then g.clients[TunnelMap(g, name)[k]].(addresses := spec.ips, targetPort := Last(entries, k).port.targetPort)
    else Wanted(name, spec.ips, entries, k)
  }

  ghost predicate TunnelsAimed(g: Group, name: Bytes, spec: Spec, keys: set<Bytes>, g': Group)
    requires WellFormed(g) && WellFormed(g') && keys <= Keys(Entries(spec.ports)) && keys <= TunnelMap(g', name).Keys
  {
    forall k :: k in keys ==>
      && g'.clients[TunnelMap(g', name)[k]] == Aimed(g, name, spec, k)
      && (if k in TunnelMap(g, name) then TunnelMap(g', name)[k] == TunnelMap(g, name)[k]
          else TunnelMap(g', name)[k] >= |g.clients|)
  }

  /** Nothing happens to a closed client or to one of another service. */
  ghost predicate OthersKept(g: Group, name: Bytes, g': Group) {
    && (forall n :: n != name ==> TunnelMap(g', n) == TunnelMap(g, n))
    && |g.clients| <= |g'.clients|
    && (forall id :: 0 <= id < |g.clients| && (g.clients[id].closed || g.clients[id].service != name) ==>
          g'.clients[id] == g.clients[id])
  }

  /** Of the service's open clients exactly those under other keys are closed. */
  ghost predicate ClosedExactly(g: Group, name: Bytes, keys: set<Bytes>, g': Group) {
    && |g.clients| <= |g'.clients|
    && forall id :: 0 <= id < |g.clients| && !g.clients[id].closed && g.clients[id].service == name ==>
         (g'.clients[id].closed <==> g.clients[id].entry.key !in keys)
  }

  /** g1 is g0 after the loop over the ports. */
  ghost predicate Looped(g0: Group, g1: Group, name: Bytes, spec: Spec) {
    && Owned(g1) && WellFormed(g1)
    && |g0.clients| <= |g1.clients| && OldClients(g0, g1, name, spec.ips, Entries(spec.ports))
    && OthersKept(g0, name, g1) && g1.endpoint == g0.endpoint
    && name in g1.tunnels && (forall k :: k in TunnelMap(g0, name) ==> k in g1.tunnels[name])
  }

  lemma PreparedAlike(g: Group, name: Bytes)
    requires Owned(g) && WellFormed(g) && !g.endpoint.Unset?
    ensures var g0 := Prepare(g, name);
      && Owned(g0) && WellFormed(g0) && name in g0.tunnels && g0.endpoint == g.endpoint
      && g0.clients == g.clients && forall n :: TunnelMap(g0, n) == TunnelMap(g, n)
  {
    PrepareKeepsOwned(g, name);
  }

  // ---- the loop over the ports ----

  lemma AppliedLooped(g0: Group, g1: Group, name: Bytes, spec: Spec)
    requires Applied(g0, g1, name, spec.ips, Entries(spec.ports))
    ensures Looped(g0, g1, name, spec)
  {
  }

  lemma AppliedAims(g0: Group, g1: Group, name: Bytes, spec: Spec)
    requires Owned(g0) && WellFormed(g0) && Applied(g0, g1, name, spec.ips, Entries(spec.ports))
    ensures TunnelsAimed(g0, name, spec, Keys(Entries(spec.ports)), g1)
  {
    var entries := Entries(spec.ports);
    forall k | k in Keys(entries)
      ensures g1.clients[g1.tunnels[name][k]] == Aimed(g0, name, spec, k)
    {
      if k in TunnelMap(g0, name) {
        var id := TunnelMap(g0, name)[k];
        assert g1.clients[id] == Touched(g0.clients[id], name, spec.ips, entries);
      }
    }
  }

  /** g1 is g0 with the service's clients under keys of the entries re-aimed. */
  ghost predicate Retouched(g0: Group, g1: Group, name: Bytes, ips: seq<Bytes>, entries: seq<Entry>) {
    && g1 == g0.(clients := g1.clients) && |g1.clients| == |g0.clients|
    && OldClients(g0, g1, name, ips, entries)
  }

  lemma RetouchedOwned(g0: Group, g1: Group, name: Bytes, ips: seq<Bytes>, entries: seq<Entry>)
    requires Owned(g0) && WellFormed(g0) && Retouched(g0, g1, name, ips, entries)
    ensures Owned(g1) && WellFormed(g1)
  {
    forall i | 0 <= i < |g1.clients| && !g1.clients[i].closed ensures Stored(g1, i) {
      assert g1.clients[i] == Touched(g0.clients[i], name, ips, entries);
      assert Stored(g0, i);
    }
    forall n, k | n in g1.tunnels && k in g1.tunnels[n]
      ensures g1.clients[g1.tunnels[n][k]] == Touched(g0.clients[g1.tunnels[n][k]], name, ips, entries)
    {
    }
  }

  lemma Retouch(g0: Group, g1: Group, name: Bytes, ips: seq<Bytes>, entries: seq<Entry>, e: Entry)
    requires Owned(g0) && WellFormed(g0) && !g0.endpoint.Usable? && !g0.endpoint.Unset?
    requires WellFormed(g1) && Retouched(g0, g1, name, ips, entries)
    ensures Retouched(g0, AddPort(g1, name, ips, e), name, ips, entries + [e])
  {
    var g2 := AddPort(g1, name, ips, e);
    forall id | 0 <= id < |g0.clients| ensures g2.clients[id] == Touched(g0.clients[id], name, ips, entries + [e]) {
      TouchedSnoc(g0.clients[id], name, ips, entries, e);
      assert g1.clients[id] == Touched(g0.clients[id], name, ips, entries);
      if !g0.clients[id].closed {
        assert Stored(g0, id);
      }
    }
  }

  /** With a malformed endpoint the loop makes nothing and re-aims what is there. */
  lemma {:induction false} AddPortsMalformed(g: Group, name: Bytes, ips: seq<Bytes>, entries: seq<Entry>)
    requires Owned(g) && WellFormed(g) && g.endpoint.Malformed?
    ensures Retouched(g, AddPorts(g, name, ips, entries), name, ips, entries)
  {
    if entries != [] {
      var n := |entries| - 1;
      AddPortsMalformed(g, name, ips, entries[..n]);
      Retouch(g, AddPorts(g, name, ips, entries[..n]), name, ips, entries[..n], entries[n]);
      assert entries[..n] + [entries[n]] == entries;
    }
  }

  lemma RetouchedLooped(g0: Group, g1: Group, name: Bytes, spec: Spec)
    requires Owned(g0) && WellFormed(g0) && name in g0.tunnels
    requires Retouched(g0, g1, name, spec.ips, Entries(spec.ports))
    ensures Looped(g0, g1, name, spec)
    ensures TunnelsAimed(g0, name, spec, TunnelMap(g0, name).Keys * Keys(Entries(spec.ports)), g1)
  {
    var entries := Entries(spec.ports);
    RetouchedOwned(g0, g1, name, spec.ips, entries);
    forall k | k in TunnelMap(g0, name) && k in Keys(entries)
      ensures g1.clients[TunnelMap(g0, name)[k]] == Aimed(g0, name, spec, k)
    {
      assert g1.clients[TunnelMap(g0, name)[k]] == Touched(g0.clients[TunnelMap(g0, name)[k]], name, spec.ips, entries);
    }
  }

  // ---- closing the rest ----

  lemma ClosesOthers(g0: Group, g1: Group, g2: Group, name: Bytes, keys: set<Bytes>)
    requires OthersKept(g0, name, g1) && Closes(g1, name, keys, g2)
    ensures OthersKept(g0, name, g2)
  {
    forall id | 0 <= id < |g0.clients| && (g0.clients[id].closed || g0.clients[id].service != name)
      ensures g2.clients[id] == g0.clients[id]
    {
      assert g1.clients[id] == g0.clients[id];
      assert g2.clients[id] == AfterClose(g1.clients[id], name, keys);
    }
  }

  lemma LoopedClosedExactly(
    g0: Group, g1: Group, g2: Group, name: Bytes, spec: Spec, gone: set<Bytes>, keys: set<Bytes>)
    requires Owned(g0) && Looped(g0, g1, name, spec) && Closes(g1, name, gone, g2)
    requires forall k :: k in TunnelMap(g0, name) ==> (k in gone <==> k !in keys)
    ensures ClosedExactly(g0, name, keys, g2)
  {
    forall id | 0 <= id < |g0.clients| && !g0.clients[id].closed && g0.clients[id].service == name
      ensures g2.clients[id].closed <==> g0.clients[id].entry.key !in keys
    {
      assert Stored(g0, id);
      assert g1.clients[id] == Touched(g0.clients[id], name, spec.ips, Entries(spec.ports));
      assert g2.clients[id] == AfterClose(g1.clients[id], name, gone);
    }
  }

  /** Closing leaves the tunnels under other keys as they are. */
  lemma ClosesAims(g0: Group, g1: Group, g2: Group, name: Bytes, spec: Spec, gone: set<Bytes>, keys: set<Bytes>)
    requires WellFormed(g0) && WellFormed(g1) && WellFormed(g2) && Owned(g1) && Closes(g1, name, gone, g2)
    requires keys <= Keys(Entries(spec.ports)) && keys <= TunnelMap(g1, name).Keys && name in g1.tunnels && gone !! keys
    requires TunnelsAimed(g0, name, spec, keys, g1)
    ensures keys <= TunnelMap(g2, name).Keys
    ensures TunnelsAimed(g0, name, spec, keys, g2)
  {
    forall k | k in keys
      ensures k in g2.tunnels[name] && g2.tunnels[name][k] == g1.tunnels[name][k]
      ensures g2.clients[g1.tunnels[name][k]] == g1.clients[g1.tunnels[name][k]]
    {
      var id := g1.tunnels[name][k];
      assert g2.tunnels[name] == g1.tunnels[name] - gone;
      assert g2.clients[id] == AfterClose(g1.clients[id], name, gone);
    }
  }

  /** What a call that closes gone, after the loop over the ports, leaves. */
  lemma CloseAfterLoop(g0: Group, g1: Group, name: Bytes, spec: Spec, gone: set<Bytes>, keys: set<Bytes>)
    requires Owned(g0) && WellFormed(g0) && Looped(g0, g1, name, spec)
    requires gone == TunnelMap(g0, name).Keys - Keys(Entries(spec.ports))
    requires keys == g1.tunnels[name].Keys - gone && keys <= Keys(Entries(spec.ports))
    requires TunnelsAimed(g0, name, spec, keys, g1)
    ensures var g2 := CloseKeys(g1, name, gone);
      && Owned(g2) && WellFormed(g2) && OthersKept(g0, name, g2) && TunnelMap(g2, name).Keys == keys
      && TunnelsAimed(g0, name, spec, keys, g2) && ClosedExactly(g0, name, keys, g2)
  {
    var g2 := CloseKeys(g1, name, gone);
    CloseKeysCloses(g1, name, gone);
    ClosesKeepsOwned(g1, name, gone, g2);
    ClosesOthers(g0, g1, g2, name, gone);
    LoopedClosedExactly(g0, g1, g2, name, spec, gone, keys);
    assert g2.tunnels[name] == g1.tunnels[name] - gone;
    ClosesAims(g0, g1, g2, name, spec, gone, keys);
  }

  // ---- case by case ----

  /** Without an endpoint nothing at all happens, not even to a deleted service. */
  lemma ReconcileUnset(g: Group, name: Bytes, spec: Spec, deleted: bool)
    requires WellFormed(g) && g.endpoint.Unset?
    ensures Reconcile(g, name, spec, deleted) == g
  {
    var before, entries := SvcTunnelMap(g, name).Keys, Entries(spec.ports);
    assert Prepare(g, name) == g && before == {};
    AddPortsUnset(g, name, spec.ips, entries);
    CloseNothing(g, name, before);
    CloseNothing(g, name, before - Keys(entries));
  }

  lemma {:induction false} AddPortsUnset(g: Group, name: Bytes, ips: seq<Bytes>, entries: seq<Entry>)
    requires WellFormed(g) && g.endpoint.Unset?
    ensures AddPorts(g, name, ips, entries) == g
  {
    if entries != [] {
      AddPortsUnset(g, name, ips, entries[..|entries| - 1]);
    }
  }

  /** g' is what a call with an endpoint makes of g. */
  ghost predicate Reconciled(g: Group, name: Bytes, spec: Spec, keys: set<Bytes>, g': Group) {
    && WellFormed(g) && Owned(g') && WellFormed(g') && OthersKept(g, name, g')
    && TunnelMap(g', name).Keys == keys && ClosedExactly(g, name, keys, g')
    && keys <= Keys(Entries(spec.ports)) && TunnelsAimed(g, name, spec, keys, g')
  }

  lemma ReconciledFrom(g: Group, g0: Group, name: Bytes, spec: Spec, keys: set<Bytes>, g': Group)
    requires WellFormed(g) && g0.clients == g.clients && forall n :: TunnelMap(g0, n) == TunnelMap(g, n)
    requires Reconciled(g0, name, spec, keys, g')
    ensures Reconciled(g, name, spec, keys, g')
  {
    assert TunnelMap(g0, name) == TunnelMap(g, name);
    forall k | k in keys ensures Aimed(g, name, spec, k) == Aimed(g0, name, spec, k) {
    }
  }

  lemma ReconcileUsable(g: Group, name: Bytes, spec: Spec)
    requires Owned(g) && WellFormed(g) && g.endpoint.Usable?
    ensures Reconciled(g, name, spec, Keys(Entries(spec.ports)), Reconcile(g, name, spec, false))
  {
    var g0, entries := Prepare(g, name), Entries(spec.ports);
    PreparedAlike(g, name);
    AddPortsApplies(g0, name, spec.ips, entries);
    var g1 := AddPorts(g0, name, spec.ips, entries);
    AppliedLooped(g0, g1, name, spec);
    AppliedAims(g0, g1, name, spec);
    var gone := SvcTunnelMap(g0, name).Keys - Keys(entries);
    assert Keys(entries) == g1.tunnels[name].Keys - gone;
    CloseAfterLoop(g0, g1, name, spec, gone, Keys(entries));
    ReconciledFrom(g, g0, name, spec, Keys(entries), CloseKeys(g1, name, gone));
  }

  lemma ReconcileMalformed(g: Group, name: Bytes, spec: Spec)
    requires Owned(g) && WellFormed(g) && g.endpoint.Malformed?
    ensures var keys := TunnelMap(g, name).Keys * Keys(Entries(spec.ports));
      Reconciled(g, name, spec, keys, Reconcile(g, name, spec, false))
  {
    var g0, entries := Prepare(g, name), Entries(spec.ports);
    PreparedAlike(g, name);
    AddPortsMalformed(g0, name, spec.ips, entries);
    var g1 := AddPorts(g0, name, spec.ips, entries);
    RetouchedLooped(g0, g1, name, spec);
    var gone := SvcTunnelMap(g0, name).Keys - Keys(entries);
    var keys := TunnelMap(g, name).Keys * Keys(entries);
    assert keys == g1.tunnels[name].Keys - gone;
    CloseAfterLoop(g0, g1, name, spec, gone, keys);
    ReconciledFrom(g, g0, name, spec, keys, CloseKeys(g1, name, gone));
  }

  lemma ReconcileDeleted(g: Group, name: Bytes, spec: Spec)
    requires Owned(g) && WellFormed(g) && !g.endpoint.Unset?
    ensures Reconciled(g, name, spec, {}, Reconcile(g, name, spec, true))
  {
    var g0 := Prepare(g, name);
    PreparedAlike(g, name);
    var keys := SvcTunnelMap(g0, name).Keys;
    var g' := CloseKeys(g0, name, keys);
    CloseKeysCloses(g0, name, keys);
    ClosesKeepsOwned(g0, name, keys, g');
    ClosesOthers(g0, g0, g', name, keys);
    AllClosed(g0, g', name);
    ReconciledFrom(g, g0, name, spec, {}, g');
  }

  lemma AllClosed(g0: Group, g': Group, name: Bytes)
    requires Owned(g0) && Closes(g0, name, TunnelMap(g0, name).Keys, g')
    ensures TunnelMap(g', name).Keys == {} && ClosedExactly(g0, name, {}, g')
  {
    forall id | 0 <= id < |g0.clients| && !g0.clients[id].closed && g0.clients[id].service == name
      ensures g'.clients[id].closed
    {
      assert Stored(g0, id);
      assert g'.clients[id] == AfterClose(g0.clients[id], name, TunnelMap(g0, name).Keys);
    }
  }

  /** reconcileTunnels, whatever the endpoint, the earlier tunnels and the Deleted flag:
      exactly which tunnel keys remain, whose clients they are and where they are aimed,
      exactly which clients are closed, and that no other is touched. */
  lemma ReconcileAny(g: Group, name: Bytes, spec: Spec, deleted: bool)
    requires Owned(g) && WellFormed(g)
    ensures var g', keys := Reconcile(g, name, spec, deleted), KeysAfter(g, name, spec, deleted);
      && Owned(g') && OthersKept(g, name, g')
      && TunnelMap(g', name).Keys == keys && ClosedExactly(g, name, keys, g')
      && (if g.endpoint.Unset? then g' == g
          else keys <= Keys(Entries(spec.ports)) && TunnelsAimed(g, name, spec, keys, g'))
  {
    if g.endpoint.Unset? {
      ReconcileUnset(g, name, spec, deleted);
      forall id | 0 <= id < |g.clients| && !g.clients[id].closed && g.clients[id].service == name
        ensures g.clients[id].entry.key in TunnelMap(g, name)
      {
        assert Stored(g, id);
      }
    } else if deleted {
      ReconcileDeleted(g, name, spec);
    } else if g.endpoint.Usable? {
      ReconcileUsable(g, name, spec);
    } else {
      ReconcileMalformed(g, name, spec);
    }
  }
}
