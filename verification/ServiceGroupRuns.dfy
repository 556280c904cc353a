/** Whole calls of ReconcileServiceGroup, and whole histories of them. */
module ServiceGroupRuns {
  import opened GoBytes
  import opened Naming
  import opened ServiceGroup
  import opened ServiceGroupProofs
  import opened Runs

  /** The spec of the first service of that name. */
  function FirstSpec(order: seq<Service>, name: Bytes): Spec
    requires name in Names(order)
  {
    var n := |order| - 1;
    if name in Names(order[..n]) then FirstSpec(order[..n], name) else Spec(order[n].ports, order[n].ips)
  }

  /** Known services keep their spec, new ones take their first. */
  function SpecsAfter(services: map<Bytes, Spec>, order: seq<Service>): map<Bytes, Spec> {
    map n | n in Names(order) :: if n in services then services[n] else FirstSpec(order, n)
  }

  lemma GoneLeaves(services: map<Bytes, Spec>, order: seq<Service>, gone: seq<Bytes>)
    requires ElementsOf(gone) == services.Keys - Names(order)
    ensures services + SpecsAfter(services, order) - ElementsOf(gone) == SpecsAfter(services, order)
  {
  }

  /** No client made so far is forgotten, remade or reopened. */
  ghost predicate Outlives(g: Group, h: Group) {
    && |g.clients| <= |h.clients|
    && forall id :: 0 <= id < |g.clients| ==> Later(g.clients[id], h.clients[id])
  }

  ghost predicate Later(c: Client, d: Client) {
    d.service == c.service && d.entry == c.entry && (c.closed ==> d == c)
  }

  lemma OutlivesChain(g: Group, h: Group, k: Group)
    requires Outlives(g, h) && Outlives(h, k)
    ensures Outlives(g, k)
  {
  }

  /** A new name is stored with the spec it comes with, a known one keeps its own. */
  function AddSpec(services: map<Bytes, Spec>, n: Service): map<Bytes, Spec> {
    if n.name in services then services else services[n.name := Spec(n.ports, n.ips)]
  }

  lemma UpsertExact(g: Group, n: Service)
    requires Inv(g) && WellFormed(g)
    ensures var g' := Upsert(g, n);
      && Inv(g') && Outlives(g, g')
      && (n.name in g.services ==> g' == g)
      && g'.services == AddSpec(g.services, n)
  {
    if n.name in g.services {
      ReconcileKnown(g, n.name, g.services[n.name]);
    } else {
      ReconcileNew(g, n.name, Spec(n.ports, n.ips));
    }
  }

  lemma SpecsSnoc(services: map<Bytes, Spec>, prefix: seq<Service>, last: Service)
    ensures services + SpecsAfter(services, prefix + [last]) == AddSpec(services + SpecsAfter(services, prefix), last)
  {
  }

  lemma {:induction false} UpsertAllInv(g: Group, order: seq<Service>)
    requires Inv(g) && WellFormed(g)
    ensures Inv(UpsertAll(g, order))
  {
    if order != [] {
      UpsertAllInv(g, order[..|order| - 1]);
      UpsertExact(UpsertAll(g, order[..|order| - 1]), order[|order| - 1]);
    }
  }

  lemma {:induction false} UpsertAllOutlives(g: Group, order: seq<Service>)
    requires Inv(g) && WellFormed(g)
    ensures Outlives(g, UpsertAll(g, order))
  {
    if order != [] {
      var g1, last := UpsertAll(g, order[..|order| - 1]), order[|order| - 1];
      UpsertAllOutlives(g, order[..|order| - 1]);
      UpsertAllInv(g, order[..|order| - 1]);
      UpsertExact(g1, last);
      OutlivesChain(g, g1, Upsert(g1, last));
    }
  }

  function AddSpecs(services: map<Bytes, Spec>, order: seq<Service>): map<Bytes, Spec> {
    if order == [] then services else AddSpec(AddSpecs(services, order[..|order| - 1]), order[|order| - 1])
  }

  lemma {:induction false} UpsertAllSpecs(g: Group, order: seq<Service>)
    requires Inv(g) && WellFormed(g)
    ensures UpsertAll(g, order).services == AddSpecs(g.services, order)
  {
    if order != [] {
      var prefix, last := order[..|order| - 1], order[|order| - 1];
      UpsertAllSpecs(g, prefix);
      UpsertAllInv(g, prefix);
      UpsertExact(UpsertAll(g, prefix), last);
    }
  }

  lemma {:induction false} AddSpecsExact(services: map<Bytes, Spec>, order: seq<Service>)
    ensures AddSpecs(services, order) == services + SpecsAfter(services, order)
  {
    if order == [] {
      assert services + SpecsAfter(services, order) == services;
    } else {
      var prefix, last := order[..|order| - 1], order[|order| - 1];
      AddSpecsExact(services, prefix);
      SpecsSnoc(services, prefix, last);
      assert order == prefix + [last];
    }
  }

  lemma RemoveExact(g: Group, name: Bytes)
    requires Inv(g) && WellFormed(g)
    ensures var g' := Remove(g, name);
      Inv(g') && Outlives(g, g') && g'.services == g.services - {name}
  {
    if name in g.services {
      ReconcileGone(g, name);
    }
  }

  lemma {:induction false} RemoveAllInv(g: Group, gone: seq<Bytes>)
    requires Inv(g) && WellFormed(g)
    ensures Inv(RemoveAll(g, gone))
  {
    if gone != [] {
      RemoveAllInv(g, gone[..|gone| - 1]);
      RemoveExact(RemoveAll(g, gone[..|gone| - 1]), gone[|gone| - 1]);
    }
  }

  lemma {:induction false} RemoveAllOutlives(g: Group, gone: seq<Bytes>)
    requires Inv(g) && WellFormed(g)
    ensures Outlives(g, RemoveAll(g, gone))
  {
    if gone != [] {
      var g1, last := RemoveAll(g, gone[..|gone| - 1]), gone[|gone| - 1];
      RemoveAllOutlives(g, gone[..|gone| - 1]);
      RemoveAllInv(g, gone[..|gone| - 1]);
      RemoveExact(g1, last);
      OutlivesChain(g, g1, Remove(g1, last));
    }
  }

  lemma RemoveSpecs(g: Group, name: Bytes)
    requires Inv(g) && WellFormed(g)
    ensures Remove(g, name).services == g.services - {name}
  {
    RemoveExact(g, name);
  }

  lemma {:induction false} RemoveAllSpecs(g: Group, gone: seq<Bytes>)
    requires Inv(g) && WellFormed(g)
    ensures RemoveAll(g, gone).services == g.services - ElementsOf(gone)
  {
    if gone != [] {
      var prefix, last := gone[..|gone| - 1], gone[|gone| - 1];
      RemoveAllSpecs(g, prefix);
      RemoveAllInv(g, prefix);
      RemoveSpecs(RemoveAll(g, prefix), last);
      ElementsSnoc(prefix, last);
      assert gone == prefix + [last];
    }
  }

  lemma ElementsSnoc(names: seq<Bytes>, last: Bytes)
    ensures ElementsOf(names + [last]) == ElementsOf(names) + {last}
  {
  }

  /** Exactness: after any call the known names are exactly the requested ones, each with
      its stored or first-seen spec, and the open tunnels are exactly those the specs call
      for; whatever the iteration orders and whatever the endpoint. */
  lemma ReconcileExact(g: Group, order: seq<Service>, gone: seq<Bytes>)
    requires Inv(g) && WellFormed(g) && Leaves(g, order, gone)
    ensures var g' := ReconcileGroup(g, order, gone);
      Inv(g') && Outlives(g, g') && g'.services == SpecsAfter(g.services, order)
  {
    var g1 := UpsertAll(g, order);
    UpsertAllInv(g, order);
    UpsertAllOutlives(g, order);
    UpsertAllSpecs(g, order);
    AddSpecsExact(g.services, order);
    RemoveAllInv(g1, gone);
    RemoveAllOutlives(g1, gone);
    RemoveAllSpecs(g1, gone);
    OutlivesChain(g, UpsertAll(g, order), ReconcileGroup(g, order, gone));
    GoneLeaves(g.services, order, gone);
  }

  /** The open tunnels of a service, by key, apart from the identity of their clients. */
  function Open(g: Group, name: Bytes): map<Bytes, Client>
    requires WellFormed(g)
  {
    map k | k in TunnelMap(g, name) :: g.clients[TunnelMap(g, name)[k]]
  }

  lemma OpenIsWanted(g: Group, name: Bytes)
    requires Inv(g) && WellFormed(g)
    ensures Open(g, name) ==
      if name in g.services && g.endpoint.Usable? then
        var entries := Entries(g.services[name].ports);
        map k | k in Keys(entries) :: Wanted(name, g.services[name].ips, entries, k)
      else map[]
  {
  }

  function PortKey(p: PortData): Bytes {
    Key(p.protocol, p.port)
  }

  lemma {:induction false} KeysOfEntries(entries: seq<Entry>, k: Bytes)
    ensures k in Keys(entries) <==> exists i :: 0 <= i < |entries| && entries[i].key == k
  {
    if entries != [] {
      KeysOfEntries(entries[..|entries| - 1], k);
    }
  }

  /** The open tunnel keys of a service are exactly those of its stored ports. */
  lemma OpenKeys(g: Group, name: Bytes, k: Bytes)
    requires Inv(g) && WellFormed(g) && g.endpoint.Usable? && name in g.services
    ensures var ports := g.services[name].ports;
      k in Open(g, name) <==> exists i :: 0 <= i < |ports| && PortKey(ports[i]) == k
  {
    var entries := Entries(g.services[name].ports);
    OpenIsWanted(g, name);
    KeysOfEntries(entries, k);
    assert forall i :: 0 <= i < |entries| ==> entries[i].key == PortKey(g.services[name].ports[i]);
  }

  /** The tunnel under a key is made for the first stored port with it, aimed at the target
      port of the last and at the stored addresses, and open. */
  lemma OpenClient(g: Group, name: Bytes, k: Bytes) returns (i: nat, j: nat)
    requires Inv(g) && WellFormed(g) && g.endpoint.Usable? && name in g.services && k in Open(g, name)
    ensures var ports := g.services[name].ports;
      && i <= j < |ports| && PortKey(ports[i]) == k && PortKey(ports[j]) == k
      && (forall x :: 0 <= x < i || j < x < |ports| ==> PortKey(ports[x]) != k)
      && Open(g, name)[k] ==
           Client(name, Entry(k, ports[i]), ports[j].targetPort, g.services[name].ips, false)
  {
    var ports, entries := g.services[name].ports, Entries(g.services[name].ports);
    OpenIsWanted(g, name);
    i := FirstMeaning(entries, k);
    j := LastMeaning(entries, k);
    assert forall x :: 0 <= x < |entries| ==> entries[x].key == PortKey(ports[x]) && entries[x].port == ports[x];
  }

  /** So without negative ports every stored port has its own tunnel: one for its protocol
      and port number, aimed as the last stored port with these says. */
  lemma TunnelPerPort(g: Group, name: Bytes, n: nat) returns (j: nat)
    requires Inv(g) && WellFormed(g) && g.endpoint.Usable? && name in g.services
    requires n < |g.services[name].ports| && forall p :: p in g.services[name].ports ==> p.port >= 0
    ensures var ports, open := g.services[name].ports, Open(g, name);
      && PortKey(ports[n]) in open
      && (var c := open[PortKey(ports[n])];
          && c.entry.port.protocol == ports[n].protocol && c.entry.port.port == ports[n].port
          && n <= j < |ports| && c.targetPort == ports[j].targetPort && c.addresses == g.services[name].ips
          && ports[j].protocol == ports[n].protocol && ports[j].port == ports[n].port
          && forall x :: j < x < |ports| ==> ports[x].protocol != ports[n].protocol || ports[x].port != ports[n].port)
  {
    var ports := g.services[name].ports;
    OpenKeys(g, name, PortKey(ports[n]));
    var i;
    i, j := OpenClient(g, name, PortKey(ports[n]));
    KeyInjective(ports[i].protocol, ports[i].port, ports[n].protocol, ports[n].port);
    KeyInjective(ports[j].protocol, ports[j].port, ports[n].protocol, ports[n].port);
  }

  /** Two groups with the same endpoint and specs have the same open tunnels. */
  lemma SameSpecsSameTunnels(g: Group, h: Group, name: Bytes)
    requires Inv(g) && WellFormed(g) && Inv(h) && WellFormed(h)
    requires g.endpoint == h.endpoint && g.services == h.services
    ensures Open(g, name) == Open(h, name)
  {
    OpenIsWanted(g, name);
    OpenIsWanted(h, name);
  }

  lemma ReconcileKeepsEndpoint(g: Group, order: seq<Service>, gone: seq<Bytes>)
    requires Inv(g) && WellFormed(g)
    ensures ReconcileGroup(g, order, gone).endpoint == g.endpoint
  {
    EndpointOfUpserts(g, order);
    EndpointOfRemoves(UpsertAll(g, order), gone);
  }

  lemma {:induction false} EndpointOfPorts(g: Group, name: Bytes, ips: seq<Bytes>, entries: seq<Entry>)
    requires WellFormed(g)
    ensures AddPorts(g, name, ips, entries).endpoint == g.endpoint
  {
    if entries != [] {
      EndpointOfPorts(g, name, ips, entries[..|entries| - 1]);
    }
  }

  lemma EndpointOfUpsert(g: Group, n: Service)
    requires WellFormed(g)
    ensures Upsert(g, n).endpoint == g.endpoint
  {
    var g1 := if n.name in g.services then g else g.(services := g.services[n.name := Spec(n.ports, n.ips)]);
    EndpointOfPorts(Prepare(g1, n.name), n.name, g1.services[n.name].ips, Entries(g1.services[n.name].ports));
  }

  lemma {:induction false} EndpointOfUpserts(g: Group, order: seq<Service>)
    requires WellFormed(g)
    ensures UpsertAll(g, order).endpoint == g.endpoint
  {
    if order != [] {
      EndpointOfUpserts(g, order[..|order| - 1]);
      EndpointOfUpsert(UpsertAll(g, order[..|order| - 1]), order[|order| - 1]);
    }
  }

  lemma {:induction false} EndpointOfRemoves(g: Group, gone: seq<Bytes>)
    requires WellFormed(g)
    ensures RemoveAll(g, gone).endpoint == g.endpoint
  {
    if gone != [] {
      EndpointOfRemoves(g, gone[..|gone| - 1]);
    }
  }

  /** Two calls over the same names leave the same stored specs exactly when their orders
      agree on which spec of each new name comes first, and then the same open tunnels. */
  lemma SameFirstSpecsSameGroup(
    g: Group, order: seq<Service>, gone: seq<Bytes>, order': seq<Service>, gone': seq<Bytes>)
    requires Inv(g) && WellFormed(g) && Leaves(g, order, gone) && Leaves(g, order', gone')
    requires Names(order) == Names(order')
    ensures var h, h' := ReconcileGroup(g, order, gone), ReconcileGroup(g, order', gone');
      && (h.services == h'.services <==>
            forall n :: n in Names(order) && n !in g.services ==> FirstSpec(order, n) == FirstSpec(order', n))
      && (h.services == h'.services ==> forall n :: Open(h, n) == Open(h', n))
  {
    var h, h' := ReconcileGroup(g, order, gone), ReconcileGroup(g, order', gone');
    ReconcileExact(g, order, gone);
    ReconcileExact(g, order', gone');
    ReconcileKeepsEndpoint(g, order, gone);
    ReconcileKeepsEndpoint(g, order', gone');
    if h.services == h'.services {
      forall n ensures Open(h, n) == Open(h', n) {
        SameSpecsSameTunnels(h, h', n);
      }
      forall n | n in Names(order) && n !in g.services ensures FirstSpec(order, n) == FirstSpec(order', n) {
        assert SpecsAfter(g.services, order)[n] == SpecsAfter(g.services, order')[n];
      }
    }
  }

  lemma {:induction false} FirstIndex(order: seq<Service>, n: Bytes) returns (i: nat)
    requires n in Names(order)
    ensures i < |order| && order[i].name == n && FirstSpec(order, n) == Spec(order[i].ports, order[i].ips)
  {
    i := |order| - 1;
    if n in Names(order[..i]) {
      var prefix := order[..i];
      i := FirstIndex(prefix, n);
      assert prefix[i] == order[i];
    }
  }

  /** Idempotence: a second call with the same names, in any order and even with other
      specs, makes nothing, closes nothing and ends in the very same state. */
  lemma ReconcileIdempotent(g: Group, order: seq<Service>, gone: seq<Bytes>)
    requires Inv(g) && WellFormed(g) && Names(order) == g.services.Keys && Leaves(g, order, gone)
    ensures ReconcileGroup(g, order, gone) == g
  {
    KnownUpserts(g, order);
    if gone != [] {
      SomeElement(gone);
    }
  }

  lemma SomeElement(names: seq<Bytes>)
    requires names != []
    ensures ElementsOf(names) != {}
  {
    assert names[0] in ElementsOf(names);
  }

  lemma RepeatedCall(g: Group, order: seq<Service>, gone: seq<Bytes>, order': seq<Service>, gone': seq<Bytes>)
    requires Inv(g) && WellFormed(g) && Leaves(g, order, gone) && Names(order') == Names(order)
    requires Leaves(ReconcileGroup(g, order, gone), order', gone')
    ensures var h := ReconcileGroup(g, order, gone);
      ReconcileGroup(h, order', gone') == h
  {
    ReconcileExact(g, order, gone);
    ReconcileIdempotent(ReconcileGroup(g, order, gone), order', gone');
  }

  lemma {:induction false} KnownUpserts(g: Group, order: seq<Service>)
    requires Inv(g) && WellFormed(g) && Names(order) <= g.services.Keys
    ensures UpsertAll(g, order) == g
  {
    if order != [] {
      KnownUpserts(g, order[..|order| - 1]);
      UpsertExact(g, order[|order| - 1]);
    }
  }

  // ---- histories ----

  /** One call, with its iteration orders. */
  datatype Call = Call(order: seq<Service>, gone: seq<Bytes>)

  ghost predicate Follows(g: Group, c: Call, g': Group) {
    WellFormed(g) && Leaves(g, c.order, c.gone) && g' == ReconcileGroup(g, c.order, c.gone)
  }

  ghost predicate History(endpoint: Endpoint, states: seq<Group>, calls: seq<Call>) {
    Path(Follows, states, calls) && states[0] == New(endpoint)
  }

  lemma NewInv(endpoint: Endpoint)
    ensures Inv(New(endpoint)) && WellFormed(New(endpoint))
  {
  }

  lemma CallKeeps(g: Group, c: Call, g': Group)
    requires Inv(g) && Follows(g, c, g')
    ensures Inv(g') && WellFormed(g') && Outlives(g, g')
  {
    ReconcileExact(g, c.order, c.gone);
  }

  lemma {:induction false} HistoryInv(endpoint: Endpoint, states: seq<Group>, calls: seq<Call>, n: nat)
    requires History(endpoint, states, calls) && n < |states|
    ensures Inv(states[n]) && WellFormed(states[n])
  {
    if n == 0 {
      NewInv(endpoint);
    } else {
      HistoryInv(endpoint, states, calls, n - 1);
      assert Follows(states[n - 1], calls[n - 1], states[n]);
      CallKeeps(states[n - 1], calls[n - 1], states[n]);
    }
  }

  lemma OutlivesItself(g: Group)
    ensures Outlives(g, g)
  {
  }

  lemma HistoryStep(endpoint: Endpoint, states: seq<Group>, calls: seq<Call>, n: nat)
    requires History(endpoint, states, calls) && n < |calls|
    ensures Outlives(states[n], states[n + 1])
  {
    HistoryInv(endpoint, states, calls, n);
    assert Follows(states[n], calls[n], states[n + 1]);
    CallKeeps(states[n], calls[n], states[n + 1]);
  }

  lemma HistoryOutlives(endpoint: Endpoint, states: seq<Group>, calls: seq<Call>, m: nat, n: nat)
    requires History(endpoint, states, calls) && m <= n < |states|
    ensures Outlives(states[m], states[n])
  {
    forall g ensures Outlives(g, g) {
      OutlivesItself(g);
    }
    forall g, h, k | Outlives(g, h) && Outlives(h, k) ensures Outlives(g, k) {
      OutlivesChain(g, h, k);
    }
    forall i | m <= i < n ensures Outlives(states[i], states[i + 1]) {
      HistoryStep(endpoint, states, calls, i);
    }
    Chains(states, Outlives, m, n);
  }

  /** Over every sequence of calls: each client ever made is either open in the one slot of
      its service and key, or closed and stored nowhere, and a closed one stays closed. */
  lemma OwnershipHistory(endpoint: Endpoint, states: seq<Group>, calls: seq<Call>, m: nat, n: nat)
    requires History(endpoint, states, calls) && m <= n < |states|
    ensures Inv(states[n]) && WellFormed(states[n]) && Outlives(states[m], states[n])
  {
    HistoryInv(endpoint, states, calls, n);
    HistoryOutlives(endpoint, states, calls, m, n);
  }

  /** The call with which the presence of a name that still lasts after n calls began. */
  function Began(calls: seq<Call>, n: nat, name: Bytes): (j: nat)
    requires 0 < n <= |calls| && name in Names(calls[n - 1].order)
    ensures j < n && name in Names(calls[j].order)
    ensures forall i :: j <= i < n ==> name in Names(calls[i].order)
    ensures j > 0 ==> name !in Names(calls[j - 1].order)
  {
    if n > 1 && name in Names(calls[n - 2].order) then Began(calls, n - 1, name) else n - 1
  }

  /** What is stored for a service is always the first spec the call that began its current
      unbroken presence gave for it; later specs are ignored until it has been away. */
  lemma {:induction false} SpecHistory(endpoint: Endpoint, states: seq<Group>, calls: seq<Call>, n: nat, name: Bytes)
    requires History(endpoint, states, calls) && 0 < n <= |calls|
    ensures name in states[n].services <==> name in Names(calls[n - 1].order)
    ensures name in states[n].services ==>
      states[n].services[name] == FirstSpec(calls[Began(calls, n, name)].order, name)
  {
    HistoryInv(endpoint, states, calls, n - 1);
    assert Follows(states[n - 1], calls[n - 1], states[n]);
    ReconcileExact(states[n - 1], calls[n - 1].order, calls[n - 1].gone);
    if n > 1 {
      SpecHistory(endpoint, states, calls, n - 1, name);
    }
  }
}
