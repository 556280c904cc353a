/** The client-side reconciler of pkg/muxtunnelClientServiceGroup.go on values: which
    tunnels exist for which services, and which clients were ever made. */
module ServiceGroup {
  import opened GoBytes
  import opened Naming

  datatype PortData = PortData(port: int, protocol: Bytes, targetPort: int, sshWrap: bool, tlsWrap: bool)

  /** An incoming ServiceInfo. */
  datatype Service = Service(name: Bytes, ports: seq<PortData>, ips: seq<Bytes>, deleted: bool)

  /** What ServiceMap keeps of it. */
  datatype Spec = Spec(ports: seq<PortData>, ips: seq<Bytes>)

  /** A port with its tunnel key. */
  datatype Entry = Entry(key: Bytes, port: PortData)

  /** A MuxTunnelClient; entry is the port it was made for. */
  datatype Client = Client(service: Bytes, entry: Entry, targetPort: int, addresses: seq<Bytes>, closed: bool)

  /** Whether apiEndpoint is empty, has no host and port, or is usable. */
  datatype Endpoint = Unset | Malformed | Usable

  /** tunnels holds indices into clients, which lists every client ever made. */
  datatype Group = Group(
    endpoint: Endpoint,
    services: map<Bytes, Spec>,
    tunnels: map<Bytes, map<Bytes, nat>>,
    clients: seq<Client>)

  function New(endpoint: Endpoint): Group {
    Group(endpoint, map[], map[], [])
  }

  function Entries(ports: seq<PortData>): seq<Entry> {
    seq(|ports|, i requires 0 <= i < |ports| => Entry(Key(ports[i].protocol, ports[i].port), ports[i]))
  }

  function Keys(entries: seq<Entry>): set<Bytes> {
    if entries == [] then {} else Keys(entries[..|entries| - 1]) + {entries[|entries| - 1].key}
  }

  /** What is stored for a service. */
  function TunnelMap(g: Group, name: Bytes): map<Bytes, nat> {
    if name in g.tunnels then g.tunnels[name] else map[]
  }

  /** svcTunnelMap: nil without an endpoint, whatever is stored. */
  function SvcTunnelMap(g: Group, name: Bytes): map<Bytes, nat> {
    if g.endpoint.Unset? then map[] else TunnelMap(g, name)
  }

  // ---- the code ----

  /** Every index is one of a client. */
  ghost predicate WellFormed(g: Group) {
    forall n, k :: n in g.tunnels && k in g.tunnels[n] ==> g.tunnels[n][k] < |g.clients|
  }

  /** A new client in slot e.key, when NewMuxTunnelClient succeeds. */
  function MakeClient(g: Group, name: Bytes, e: Entry): Group {
    var n: nat := |g.clients|;
    g.(tunnels := g.tunnels[name := TunnelMap(g, name)[e.key := n]],
       clients := g.clients + [Client(name, e, e.port.targetPort, [], false)])
  }

  function UpdateClient(g: Group, id: nat, ips: seq<Bytes>, targetPort: int): Group
    requires id < |g.clients|
  {
    g.(clients := g.clients[id := g.clients[id].(addresses := ips, targetPort := targetPort)])
  }

  /** One round of the loop over the ports: lines 75-114. */
  function AddPort(g: Group, name: Bytes, ips: seq<Bytes>, e: Entry): Group
    requires WellFormed(g)
  {
    if e.key in SvcTunnelMap(g, name) then UpdateClient(g, SvcTunnelMap(g, name)[e.key], ips, e.port.targetPort)
    else if !g.endpoint.Usable? then g
    else UpdateClient(MakeClient(g, name, e), |g.clients|, ips, e.port.targetPort)
  }

  function AddPorts(g: Group, name: Bytes, ips: seq<Bytes>, entries: seq<Entry>): (g': Group)
    requires WellFormed(g)
    ensures WellFormed(g')
  {
    if entries == [] then g
    else AddPort(AddPorts(g, name, ips, entries[..|entries| - 1]), name, ips, entries[|entries| - 1])
  }

  /** Closing the tunnels under some keys of a service: lines 118-122. */
  function CloseKeys(g: Group, name: Bytes, keys: set<Bytes>): Group {
    var m := TunnelMap(g, name);
    var ids := set k | k in keys && k in m :: m[k];
    g.(tunnels := if name in g.tunnels then g.tunnels[name := m - keys] else g.tunnels,
       clients := seq(|g.clients|, i requires 0 <= i < |g.clients| =>
                      if i in ids then g.clients[i].(closed := true) else g.clients[i]))
  }

  function Prepare(g: Group, name: Bytes): Group {
    if g.endpoint.Unset? || name in g.tunnels then g else g.(tunnels := g.tunnels[name := map[]])
  }

  /** reconcileTunnels. */
  function Reconcile(g: Group, name: Bytes, spec: Spec, deleted: bool): (g': Group)
    requires WellFormed(g)
    ensures WellFormed(g')
  {
    var g0 := Prepare(g, name);
    var before := SvcTunnelMap(g0, name).Keys;
    if deleted then CloseKeys(g0, name, before)
    else CloseKeys(AddPorts(g0, name, spec.ips, Entries(spec.ports)), name, before - Keys(Entries(spec.ports)))
  }

  /** One incoming service: lines 135-156. A service already known keeps its stored spec,
      and the incoming Deleted flag is not looked at. */
  function Upsert(g: Group, n: Service): (g': Group)
    requires WellFormed(g)
    ensures WellFormed(g')
  {
    var g1 := if n.name in g.services then g else g.(services := g.services[n.name := Spec(n.ports, n.ips)]);
    Reconcile(g1, n.name, g1.services[n.name], false)
  }

  /** The incoming services in the order the map iteration yields them. */
  function UpsertAll(g: Group, order: seq<Service>): (g': Group)
    requires WellFormed(g)
    ensures WellFormed(g')
  {
    if order == [] then g else Upsert(UpsertAll(g, order[..|order| - 1]), order[|order| - 1])
  }

  /** One service that is gone: lines 159-164. */
  function Remove(g: Group, name: Bytes): (g': Group)
    requires WellFormed(g)
    ensures WellFormed(g')
  {
    if name in g.services then
      var g1 := Reconcile(g, name, g.services[name], true);
      g1.(services := g1.services - {name})
    else g
  }

  function RemoveAll(g: Group, gone: seq<Bytes>): (g': Group)
    requires WellFormed(g)
    ensures WellFormed(g')
  {
    if gone == [] then g else Remove(RemoveAll(g, gone[..|gone| - 1]), gone[|gone| - 1])
  }

  function Names(order: seq<Service>): set<Bytes> {
    if order == [] then {} else Names(order[..|order| - 1]) + {order[|order| - 1].name}
  }

  function ElementsOf(names: seq<Bytes>): set<Bytes> {
    set n | n in names
  }

  /** ReconcileServiceGroup; order and gone are the iteration orders of its two loops. */
  function ReconcileGroup(g: Group, order: seq<Service>, gone: seq<Bytes>): (g': Group)
    requires WellFormed(g)
    ensures WellFormed(g')
  {
    RemoveAll(UpsertAll(g, order), gone)
  }

  /** gone lists the services known before the call and not among the incoming ones. */
  ghost predicate Leaves(g: Group, order: seq<Service>, gone: seq<Bytes>) {
    && ElementsOf(gone) == g.services.Keys - Names(order)
    && (forall i, j :: 0 <= i < j < |gone| ==> gone[i] != gone[j])
  }

  // ---- the invariant ----

  /** Every client ever made is either open and stored in exactly the slot of its service
      and port key, or closed and stored nowhere. */
  ghost predicate Owned(g: Group) {
    && (forall n, k :: n in g.tunnels && k in g.tunnels[n] ==>
          var id := g.tunnels[n][k];
          id < |g.clients| && !g.clients[id].closed && g.clients[id].service == n && g.clients[id].entry.key == k)
    && (forall id :: 0 <= id < |g.clients| && !g.clients[id].closed ==> Stored(g, id))
  }

  ghost predicate Stored(g: Group, id: nat)
    requires id < |g.clients|
  {
    var c := g.clients[id];
    c.service in g.tunnels && c.entry.key in g.tunnels[c.service] && g.tunnels[c.service][c.entry.key] == id
  }

  function First(entries: seq<Entry>, k: Bytes): Entry
    requires k in Keys(entries)
  {
    var n := |entries| - 1;
    if k in Keys(entries[..n]) then First(entries[..n], k) else entries[n]
  }

  function Last(entries: seq<Entry>, k: Bytes): Entry
    requires k in Keys(entries)
  {
    var n := |entries| - 1;
    if entries[n].key == k then entries[n] else Last(entries[..n], k)
  }

  lemma {:induction false} KeysMember(entries: seq<Entry>, i: nat)
    requires i < |entries|
    ensures entries[i].key in Keys(entries)
  {
    if i < |entries| - 1 {
      KeysMember(entries[..|entries| - 1], i);
    }
  }

  /** First and Last are what their names say. */
  lemma {:induction false} FirstMeaning(entries: seq<Entry>, k: Bytes) returns (i: nat)
    requires k in Keys(entries)
    ensures i < |entries| && entries[i] == First(entries, k) && entries[i].key == k
    ensures forall j :: 0 <= j < i ==> entries[j].key != k
  {
    var n := |entries| - 1;
    var prefix := entries[..n];
    if k in Keys(prefix) {
      i := FirstMeaning(prefix, k);
      assert forall j :: 0 <= j < i ==> prefix[j] == entries[j];
    } else {
      i := n;
      forall j | 0 <= j < n ensures entries[j].key != k {
        KeysMember(prefix, j);
      }
    }
  }

  lemma {:induction false} LastMeaning(entries: seq<Entry>, k: Bytes) returns (i: nat)
    requires k in Keys(entries)
    ensures i < |entries| && entries[i] == Last(entries, k) && entries[i].key == k
    ensures forall j :: i < j < |entries| ==> entries[j].key != k
  {
    i := |entries| - 1;
    if entries[i].key != k {
      var prefix := entries[..i];
      i := LastMeaning(prefix, k);
      assert forall j :: i < j < |prefix| ==> prefix[j] == entries[j];
    }
  }

  /** The tunnel a service's stored spec calls for under a key: made for the first port
      with that key, aimed at the last one's target port. */
  function Wanted(name: Bytes, ips: seq<Bytes>, entries: seq<Entry>, k: Bytes): Client
    requires k in Keys(entries)
  {
    Client(name, First(entries, k), Last(entries, k).port.targetPort, ips, false)
  }

  /** The open tunnels of a service are exactly those its stored spec calls for. */
  ghost predicate Exact(g: Group, name: Bytes, spec: Spec)
    requires Owned(g)
  {
    var entries := Entries(spec.ports);
    if g.endpoint.Usable? then
      && name in g.tunnels && g.tunnels[name].Keys == Keys(entries)
      && forall k :: k in g.tunnels[name] ==> g.clients[g.tunnels[name][k]] == Wanted(name, spec.ips, entries, k)
    else TunnelMap(g, name) == map[] && (g.endpoint.Malformed? ==> name in g.tunnels)
  }

  ghost predicate Inv(g: Group) {
    && Owned(g)
    && (forall n :: n in g.services ==> Exact(g, n, g.services[n]))
    && (forall n :: n !in g.services ==> TunnelMap(g, n) == map[])
    && (g.endpoint.Unset? ==> g.tunnels == map[])
  }
}
