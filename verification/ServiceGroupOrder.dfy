/** Iteration orders: when ReconcileServiceGroup does the same whichever order its two map
    loops happen to take. */
module ServiceGroupOrder {
  import opened GoBytes
  import opened ServiceGroup
  import opened ServiceGroupRuns

  /** keys lists the elements of s, each once. */
  ghost predicate Lists(keys: seq<Bytes>, s: set<Bytes>) {
    ElementsOf(keys) == s && forall i, j :: 0 <= i < j < |keys| ==> keys[i] != keys[j]
  }

  /** The services a map yields when iterated in the order of keys. */
  ghost function Yielded(m: map<Bytes, Service>, keys: seq<Bytes>): seq<Service>
    requires ElementsOf(keys) <= m.Keys
  {
    seq(|keys|, i requires 0 <= i < |keys| => assert keys[i] in ElementsOf(keys); m[keys[i]])
  }

  /** keys and gone are orders the two loops of a call for m may take. */
  ghost predicate Orders(g: Group, m: map<Bytes, Service>, keys: seq<Bytes>, gone: seq<Bytes>) {
    Lists(keys, m.Keys) && Leaves(g, Yielded(m, keys), gone)
  }

  /** The same stored specs and, for every service, the same open tunnels. */
  ghost predicate SameOutcome(h: Group, h': Group)
    requires WellFormed(h) && WellFormed(h')
  {
    h.services == h'.services && forall n :: Open(h, n) == Open(h', n)
  }

  /** Every order of a call for m has the same outcome. */
  ghost predicate OrderIrrelevant(g: Group, m: map<Bytes, Service>)
    requires WellFormed(g)
  {
    forall keys, gone, keys', gone' :: Orders(g, m, keys, gone) && Orders(g, m, keys', gone') ==>
      SameOutcome(ReconcileGroup(g, Yielded(m, keys), gone), ReconcileGroup(g, Yielded(m, keys'), gone'))
  }

  /** Entries of m that introduce the same new name agree on its ports and addresses. */
  predicate NewNamesAgree(g: Group, m: map<Bytes, Service>) {
    forall a, b :: a in m && b in m && m[a].name == m[b].name && m[a].name !in g.services ==>
      m[a].ports == m[b].ports && m[a].ips == m[b].ips
  }

  // ---- orders exist ----

  lemma {:induction false} SomeOrder(s: set<Bytes>) returns (keys: seq<Bytes>)
    ensures Lists(keys, s)
  {
    if s == {} {
      keys := [];
    } else {
      var k :| k in s;
      var rest := SomeOrder(s - {k});
      keys := [k] + rest;
      ConsLists(k, rest, s);
    }
  }

  lemma ConsLists(k: Bytes, rest: seq<Bytes>, s: set<Bytes>)
    requires k in s && Lists(rest, s - {k})
    ensures Lists([k] + rest, s)
  {
    forall i | 0 <= i < |rest| ensures rest[i] != k {
      assert rest[i] in ElementsOf(rest);
    }
    forall x ensures x in ElementsOf([k] + rest) <==> x in s {
      assert x in ElementsOf([k] + rest) <==> x == k || x in ElementsOf(rest);
    }
  }

  /** Some order of a call for m begins with a. */
  lemma OrderFrom(g: Group, m: map<Bytes, Service>, a: Bytes) returns (keys: seq<Bytes>, gone: seq<Bytes>)
    requires a in m
    ensures Orders(g, m, keys, gone) && keys[..1] == [a]
  {
    var rest := SomeOrder(m.Keys - {a});
    ConsLists(a, rest, m.Keys);
    keys := [a] + rest;
    gone := SomeOrder(g.services.Keys - Names(Yielded(m, keys)));
  }

  // ---- what an order makes of new names ----

  lemma {:induction false} NamesMember(order: seq<Service>, n: Bytes)
    ensures n in Names(order) <==> exists i :: 0 <= i < |order| && order[i].name == n
  {
    if order != [] {
      NamesMember(order[..|order| - 1], n);
    }
  }

  lemma YieldedNames(m: map<Bytes, Service>, keys: seq<Bytes>, n: Bytes)
    requires Lists(keys, m.Keys)
    ensures n in Names(Yielded(m, keys)) <==> exists a :: a in m && m[a].name == n
  {
    NamesMember(Yielded(m, keys), n);
    if a :| a in m && m[a].name == n {
      assert a in ElementsOf(keys);
      var i :| 0 <= i < |keys| && keys[i] == a;
      assert Yielded(m, keys)[i].name == n;
    }
    if i :| 0 <= i < |keys| && Yielded(m, keys)[i].name == n {
      assert keys[i] in ElementsOf(keys);
    }
  }

  lemma SameNames(m: map<Bytes, Service>, keys: seq<Bytes>, keys': seq<Bytes>)
    requires Lists(keys, m.Keys) && Lists(keys', m.Keys)
    ensures Names(Yielded(m, keys)) == Names(Yielded(m, keys'))
  {
    forall n ensures n in Names(Yielded(m, keys)) <==> n in Names(Yielded(m, keys')) {
      YieldedNames(m, keys, n);
      YieldedNames(m, keys', n);
    }
  }

  /** The spec an order gives a name is that of some entry. */
  lemma FirstEntry(m: map<Bytes, Service>, keys: seq<Bytes>, n: Bytes) returns (a: Bytes)
    requires Lists(keys, m.Keys) && n in Names(Yielded(m, keys))
    ensures a in m && m[a].name == n && FirstSpec(Yielded(m, keys), n) == Spec(m[a].ports, m[a].ips)
  {
    var i := FirstIndex(Yielded(m, keys), n);
    assert keys[i] in ElementsOf(keys);
    a := keys[i];
  }

  lemma {:induction false} FirstOfHead(order: seq<Service>)
    requires order != []
    ensures order[0].name in Names(order)
    ensures FirstSpec(order, order[0].name) == Spec(order[0].ports, order[0].ips)
  {
    if |order| > 1 {
      FirstOfHead(order[..|order| - 1]);
    }
  }

  // ---- confluence ----

  lemma AgreeingOrders(
    g: Group, m: map<Bytes, Service>, keys: seq<Bytes>, gone: seq<Bytes>, keys': seq<Bytes>, gone': seq<Bytes>)
    requires Inv(g) && WellFormed(g) && NewNamesAgree(g, m)
    requires Orders(g, m, keys, gone) && Orders(g, m, keys', gone')
    ensures SameOutcome(ReconcileGroup(g, Yielded(m, keys), gone), ReconcileGroup(g, Yielded(m, keys'), gone'))
  {
    var order, order' := Yielded(m, keys), Yielded(m, keys');
    SameNames(m, keys, keys');
    forall n | n in Names(order) && n !in g.services ensures FirstSpec(order, n) == FirstSpec(order', n) {
      var a := FirstEntry(m, keys, n);
      var b := FirstEntry(m, keys', n);
    }
    SameFirstSpecsSameGroup(g, order, gone, order', gone');
  }

  /** Two entries that disagree on a new name: two orders with different outcomes. */
  lemma DivergingOrders(g: Group, m: map<Bytes, Service>, a: Bytes, b: Bytes)
    returns (keys: seq<Bytes>, gone: seq<Bytes>, keys': seq<Bytes>, gone': seq<Bytes>)
    requires Inv(g) && WellFormed(g) && a in m && b in m && m[a].name == m[b].name && m[a].name !in g.services
    requires m[a].ports != m[b].ports || m[a].ips != m[b].ips
    ensures Orders(g, m, keys, gone) && Orders(g, m, keys', gone')
    ensures ReconcileGroup(g, Yielded(m, keys), gone).services != ReconcileGroup(g, Yielded(m, keys'), gone').services
  {
    keys, gone := OrderFrom(g, m, a);
    keys', gone' := OrderFrom(g, m, b);
    var order, order' := Yielded(m, keys), Yielded(m, keys');
    assert order[0] == m[a] && order'[0] == m[b];
    FirstOfHead(order);
    FirstOfHead(order');
    SameNames(m, keys, keys');
    SameFirstSpecsSameGroup(g, order, gone, order', gone');
  }

  /** Confluence: the outcome of a call is the same for every iteration order exactly when
      incoming entries that introduce the same new name agree on its ports and addresses. */
  lemma ConfluentIff(g: Group, m: map<Bytes, Service>)
    requires Inv(g) && WellFormed(g)
    ensures OrderIrrelevant(g, m) <==> NewNamesAgree(g, m)
  {
    if NewNamesAgree(g, m) {
      forall keys, gone, keys', gone' | Orders(g, m, keys, gone) && Orders(g, m, keys', gone')
        ensures SameOutcome(ReconcileGroup(g, Yielded(m, keys), gone), ReconcileGroup(g, Yielded(m, keys'), gone'))
      {
        AgreeingOrders(g, m, keys, gone, keys', gone');
      }
    } else {
      var a, b :| a in m && b in m && m[a].name == m[b].name && m[a].name !in g.services
                  && !(m[a].ports == m[b].ports && m[a].ips == m[b].ips);
      var keys, gone, keys', gone' := DivergingOrders(g, m, a, b);
      assert Orders(g, m, keys, gone) && Orders(g, m, keys', gone');
    }
  }

  /** In particular the order never matters when the incoming names are distinct. */
  lemma DistinctNamesConfluent(g: Group, m: map<Bytes, Service>)
    requires Inv(g) && WellFormed(g)
    requires forall a, b :: a in m && b in m && m[a].name == m[b].name ==> a == b
    ensures OrderIrrelevant(g, m)
  {
    ConfluentIff(g, m);
  }
}
