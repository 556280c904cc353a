/** The port pool of pkg/pool.go. */
module Pool {
  import opened GoBytes

  /** The abstract value of a pool: the keys of its two maps. */
  datatype Ports = Ports(free: set<int>, leased: set<int>)

  /** The elements NewPoolForRange(lowerBound, cap) starts with. */
  function Range(lowerBound: int, cap: int): (r: set<int>)
    ensures forall x :: x in r <==> lowerBound <= x < lowerBound + cap
    decreases if cap < 0 then 0 else cap
  {
    if cap <= 0 then {} else Range(lowerBound, cap - 1) + {lowerBound + cap - 1}
  }

  /** The element a GetElement(v) call hands out, if any. The map iteration of a call
      with v == 0 stops at an arbitrary free element, here pick. */
  function HandsOut(p: Ports, v: int, pick: int): Option<int> {
    if p.free == {} then None
    else if v == 0 then Some(pick)
    else if v in p.free then Some(v)
    else None
  }

  /** pick is an element the iteration over the free map can produce. */
  predicate PickOk(p: Ports, v: int, pick: int) {
    v == 0 && p.free != {} ==> pick in p.free
  }

  function AfterGet(p: Ports, v: int, pick: int): Ports {
    match HandsOut(p, v, pick)
    case None => p
    case Some(x) => Ports(p.free - {x}, p.leased + {x})
  }

  function AfterReturn(p: Ports, v: int): Ports {
    if v in p.leased then Ports(p.free + {v}, p.leased - {v}) else p
  }

  lemma SomeElement<T>(s: set<T>) returns (x: T)
    requires s != {}
    ensures x in s
  {
    x :| x in s;
  }

  class PoolInts {
    var free: map<int, bool>
    var leased: map<int, bool>

    /** Go reads an absent key of map[int]bool as false; the code only ever stores true. */
    ghost predicate Valid()
      reads this
    {
      && (forall k :: k in free ==> free[k])
      && (forall k :: k in leased ==> leased[k])
    }

    ghost function View(): Ports
      reads this
    {
      Ports(free.Keys, leased.Keys)
    }

    constructor ForRange(lowerBound: int, cap: int)
      ensures Valid()
      ensures View() == Ports(Range(lowerBound, cap), {})
    {
      free := map[];
      leased := map[];
      new;
      var i := 0;
      while i < cap
        invariant 0 <= i && (0 <= cap ==> i <= cap) && (cap < 0 ==> i == 0)
        invariant Valid() && leased == map[]
        invariant forall x :: x in free <==> lowerBound <= x < lowerBound + i
      {
        free := free[lowerBound + i := true];
        i := i + 1;
      }
    }

    method GetElement(v: int) returns (r: Option<int>)
      requires Valid()
      modifies this
      ensures Valid()
      ensures r.Some? <==> old(View()).free != {} && (v == 0 || v in old(View()).free)
      ensures r.Some? ==> r.value in old(View()).free && (v == 0 || r.value == v)
      ensures View() == if r.None? then old(View())
                        else Ports(old(View()).free - {r.value}, old(View()).leased + {r.value})
      ensures r.Some? ==> PickOk(old(View()), v, r.value)
      ensures r == HandsOut(old(View()), v, if r.Some? then r.value else 0)
      ensures View() == AfterGet(old(View()), v, if r.Some? then r.value else 0)
    {
      var keys := free.Keys;
      if keys == {} {
        return None;
      }
      var x := v;
      if v == 0 {
        ghost var w := SomeElement(keys);
        assert w in keys;
        var k :| k in keys;
        x := k;
      } else if v !in free || !free[v] {
        return None;
      }
      free := free - {x};
      leased := leased[x := true];
      r := Some(x);
    }

    method ReturnElement(v: int)
      requires Valid()
      modifies this
      ensures Valid() && View() == AfterReturn(old(View()), v)
      ensures View() == if v !in old(View()).leased then old(View())
                        else Ports(old(View()).free + {v}, old(View()).leased - {v})
    {
      if v in leased && leased[v] {
        leased := leased - {v};
        free := free[v := true];
      }
    }
  }

  /** One call on the pool; pick resolves the iteration order of GetElement(0). */
  datatype Call = Get(v: int, pick: int) | Return(v: int)

  predicate Possible(p: Ports, c: Call) {
    c.Get? ==> PickOk(p, c.v, c.pick)
  }

  function After(p: Ports, c: Call): Ports {
    match c
    case Get(v, pick) => AfterGet(p, v, pick)
    case Return(v) => AfterReturn(p, v)
  }

  /** What a call hands out. */
  function Leased(p: Ports, c: Call): Option<int> {
    if c.Get? then HandsOut(p, c.v, c.pick) else None
  }

  /** states[i] is the pool before call i, from NewPoolForRange on. */
  ghost predicate Trace(range: set<int>, states: seq<Ports>, calls: seq<Call>) {
    && |states| == |calls| + 1
    && states[0] == Ports(range, {})
    && forall i :: 0 <= i < |calls| ==> Possible(states[i], calls[i]) && states[i + 1] == After(states[i], calls[i])
  }

  /** Whatever is called, in any order, the free and the leased elements partition the
      initial range. */
  lemma {:induction false} Partition(range: set<int>, states: seq<Ports>, calls: seq<Call>, n: nat)
    requires Trace(range, states, calls) && n <= |calls|
    ensures states[n].free + states[n].leased == range && states[n].free !! states[n].leased
  {
    if n > 0 {
      Partition(range, states, calls, n - 1);
      assert Possible(states[n - 1], calls[n - 1]);
    }
  }

  /** Call i handed x out and none of the calls i+1..n-1 returned it. */
  ghost predicate HeldSince(states: seq<Ports>, calls: seq<Call>, n: nat, x: int, i: nat)
    requires n <= |calls| <= |states|
  {
    && i < n
    && Leased(states[i], calls[i]) == Some(x)
    && Return(x) !in calls[i + 1..n]
  }

  /** An element some call handed out and no later call returned is leased... */
  lemma {:induction false} HeldIsLeased(range: set<int>, states: seq<Ports>, calls: seq<Call>, n: nat, x: int, i: nat)
    requires Trace(range, states, calls) && n <= |calls|
    requires HeldSince(states, calls, n, x, i)
    ensures x in states[n].leased
  {
    var m := n - 1;
    assert states[n] == After(states[m], calls[m]);
    if i < m {
      assert calls[i + 1..n] == calls[i + 1..m] + [calls[m]];
      HeldIsLeased(range, states, calls, m, x, i);
    }
  }

  /** ...and every leased element is one of these. */
  lemma {:induction false} LeasedIsHeld(
    range: set<int>, states: seq<Ports>, calls: seq<Call>, n: nat, x: int) returns (i: nat)
    requires Trace(range, states, calls) && n <= |calls|
    requires x in states[n].leased
    ensures HeldSince(states, calls, n, x, i)
  {
    var m := n - 1;
    assert states[n] == After(states[m], calls[m]);
    if Leased(states[m], calls[m]) == Some(x) {
      i := m;
    } else {
      i := LeasedIsHeld(range, states, calls, m, x);
      Partition(range, states, calls, m);
      assert calls[i + 1..n] == calls[i + 1..m] + [calls[m]];
    }
  }

  /** No element is handed out twice without being returned in between. */
  lemma NoDoubleLease(range: set<int>, states: seq<Ports>, calls: seq<Call>, i: nat, k: nat, x: int)
    requires Trace(range, states, calls) && i < k < |calls|
    requires Leased(states[i], calls[i]) == Some(x) && Leased(states[k], calls[k]) == Some(x)
    ensures Return(x) in calls[i + 1..k]
  {
    if Return(x) !in calls[i + 1..k] {
      HeldIsLeased(range, states, calls, k, x, i);
      Partition(range, states, calls, k);
    }
  }
}
