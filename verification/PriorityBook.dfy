/** One side of the book as a list in strict priority order. Orders the comparators cannot
    tell apart share one entry, so the list is determined by the multiset of resting orders
    and does not depend on how a heap breaks ties. */
module PriorityBook {
  import opened Orders

  ghost predicate Sorted(d: Direction, s: seq<Order>) {
    && (forall i :: 0 <= i < |s| ==> CanRest(d, s[i]))
    && (forall i, j :: 0 <= i < j < |s| ==> Before(d, s[i], s[j]))
  }

  ghost predicate OnSide(d: Direction, m: multiset<Order>) {
    forall o :: o in m ==> CanRest(d, o)
  }

  /** No resting order precedes t. */
  ghost predicate Best(d: Direction, t: Order, m: multiset<Order>) {
    forall o :: o in m ==> !Before(d, o, t)
  }

  /** Inserts one order at its priority. */
  function Add(d: Direction, s: seq<Order>, o: Order): seq<Order> {
    if s == [] then [o]
    else if Before(d, o, s[0]) then [o] + s
    else if Before(d, s[0], o) then [s[0]] + Add(d, s[1..], o)
    else [s[0].(volume := s[0].volume + o.volume)] + s[1..]
  }

  /** Trades v units of the first entry away. */
  function Take(s: seq<Order>, v: int): seq<Order>
    requires s != []
  {
    if v == s[0].volume then s[1..] else [s[0].(volume := s[0].volume - v)] + s[1..]
  }

  function Total(s: seq<Order>): int {
    if s == [] then 0 else s[0].volume + Total(s[1..])
  }

  // ------------------------------------------------------------------- quotes

  ghost predicate Cheapest(m: multiset<Order>, q: int) {
    (exists o :: o in m && o.price == q) && forall o :: o in m ==> q <= o.price
  }

  ghost predicate Dearest(m: multiset<Order>, q: int) {
    (exists o :: o in m && o.price == q) && forall o :: o in m ==> o.price <= q
  }

  /** The price that an order of direction d is measured by: the best one of the opposite side,
      else the best one of its own side, else the last price. */
  ghost predicate QuoteOf(sells: multiset<Order>, buys: multiset<Order>, last: int, d: Direction, q: int) {
    if sells == multiset{} && buys == multiset{} then q == last
    else if (d == Buy && sells != multiset{}) || buys == multiset{} then Cheapest(sells, q)
    else Dearest(buys, q)
  }

  lemma BestQuote(d: Direction, m: multiset<Order>, t: Order)
    requires t in m && Best(d, t, m)
    ensures if d == Sale then Cheapest(m, t.price) else Dearest(m, t.price)
  {
    forall o | o in m ensures !Before(d, o, t) {
    }
  }

  lemma FirstIsBest(d: Direction, s: seq<Order>)
    requires Sorted(d, s) && s != []
    ensures Best(d, s[0], multiset(s)) && s[0] in multiset(s)
  {
    forall o | o in multiset(s) ensures !Before(d, o, s[0]) {
      var i :| 0 <= i < |s| && s[i] == o;
      assert i > 0 ==> Before(d, s[0], s[i]);
    }
  }

  // -------------------------------------------------------- insertion commutes

  function Merge(a: Order, b: Order): Order {
    a.(volume := a.volume + b.volume)
  }

  lemma AddCons(d: Direction, h: Order, t: seq<Order>, o: Order)
    ensures Before(d, o, h) ==> Add(d, [h] + t, o) == [o] + ([h] + t)
    ensures Before(d, h, o) ==> Add(d, [h] + t, o) == [h] + Add(d, t, o)
    ensures !Before(d, o, h) && !Before(d, h, o) ==> Add(d, [h] + t, o) == [Merge(h, o)] + t
  {
    assert ([h] + t)[1..] == t;
  }

  lemma {:induction false} AddCommutes(d: Direction, s: seq<Order>, a: Order, b: Order)
    requires a.direction == b.direction == d
    ensures Add(d, Add(d, s, a), b) == Add(d, Add(d, s, b), a)
  {
    if s == [] {
      AddCons(d, a, [], b);
      AddCons(d, b, [], a);
    } else {
      var h, t := s[0], s[1..];
      assert s == [h] + t;
      AddCons(d, h, t, a);
      AddCons(d, h, t, b);
      if Before(d, h, a) && Before(d, h, b) {
        AddCommutes(d, t, a, b);
        AddCons(d, h, Add(d, t, a), b);
        AddCons(d, h, Add(d, t, b), a);
      } else if Before(d, a, h) && Before(d, b, h) {
        AddCons(d, a, s, b);
        AddCons(d, b, s, a);
      } else if Before(d, a, h) {
        AddFirstOnce(d, h, t, a, b);
      } else if Before(d, b, h) {
        AddFirstOnce(d, h, t, b, a);
      } else {
        AddCons(d, Merge(h, a), t, b);
        AddCons(d, Merge(h, b), t, a);
        AddCons(d, h, Add(d, t, a), b);
        AddCons(d, h, Add(d, t, b), a);
      }
    }
  }

  /** The case where a goes before the first entry and b does not. */
  lemma AddFirstOnce(d: Direction, h: Order, t: seq<Order>, a: Order, b: Order)
    requires Before(d, a, h) && !Before(d, b, h)
    ensures Add(d, Add(d, [h] + t, a), b) == Add(d, Add(d, [h] + t, b), a)
  {
    AddCons(d, h, t, a);
    AddCons(d, h, t, b);
    AddCons(d, a, [h] + t, b);
    AddCons(d, h, Add(d, t, b), a);
    AddCons(d, Merge(h, b), t, a);
  }

  /** The list of a multiset of resting orders. */
  ghost function Canon(d: Direction, m: multiset<Order>): seq<Order>
    decreases |m|
  {
    if m == multiset{} then [] else
      var o :| o in m;
      Add(d, Canon(d, m - multiset{o}), o)
  }

  /** Inserting into the multiset inserts into the list, whatever order the list was built in. */
  lemma {:induction false} CanonAdd(d: Direction, m: multiset<Order>, o: Order)
    requires OnSide(d, m) && o.direction == d
    ensures Canon(d, m + multiset{o}) == Add(d, Canon(d, m), o)
    decreases |m|
  {
    var n := m + multiset{o};
    var p :| p in n && Canon(d, n) == Add(d, Canon(d, n - multiset{p}), p);
    if p == o {
      assert n - multiset{p} == m;
    } else {
      var k := m - multiset{p};
      assert n - multiset{p} == k + multiset{o} && m == k + multiset{p};
      CanonAdd(d, k, o);
      CanonAdd(d, k, p);
      AddCommutes(d, Canon(d, k), o, p);
    }
  }

  // ---------------------------------------------------------------- shape

  lemma {:induction false} AddKeys(d: Direction, s: seq<Order>, o: Order, x: Order)
    requires x in Add(d, s, o)
    ensures SameKey(x, o) || exists y :: y in s && SameKey(x, y)
  {
    if x in s {
      assert SameKey(x, x);
    } else if s != [] && Before(d, s[0], o) {
      AddKeys(d, s[1..], o, x);
      if !SameKey(x, o) {
        var y :| y in s[1..] && SameKey(x, y);
        assert y in s;
      }
    }
  }

  lemma {:induction false} AddSorted(d: Direction, s: seq<Order>, o: Order)
    requires Sorted(d, s) && CanRest(d, o)
    ensures Sorted(d, Add(d, s, o))
  {
    if s != [] && Before(d, s[0], o) {
      AddSorted(d, s[1..], o);
      var t := Add(d, s[1..], o);
      forall x | x in t ensures Before(d, s[0], x) {
        AddKeys(d, s[1..], o, x);
      }
    }
  }

  lemma {:induction false} CanonSorted(d: Direction, m: multiset<Order>)
    requires OnSide(d, m)
    ensures Sorted(d, Canon(d, m))
    ensures forall x :: x in Canon(d, m) ==> exists y :: y in m && SameKey(x, y)
    ensures Canon(d, m) == [] <==> m == multiset{}
    decreases |m|
  {
    if m != multiset{} {
      var o :| o in m && Canon(d, m) == Add(d, Canon(d, m - multiset{o}), o);
      CanonSorted(d, m - multiset{o});
      var c := Canon(d, m - multiset{o});
      AddSorted(d, c, o);
      forall x | x in Add(d, c, o) ensures exists y :: y in m && SameKey(x, y) {
        AddKeys(d, c, o, x);
        if SameKey(x, o) {
          assert o in m;
        } else {
          var z :| z in c && SameKey(x, z);
          var y :| y in m - multiset{o} && SameKey(z, y);
          assert y in m;
        }
      }
    }
  }

  /** The first entry of the list is the key of any best resting order, and trading part or
      all of that order away is the same on the multiset and on the list. */
  lemma {:induction false} CanonTop(d: Direction, m: multiset<Order>, t: Order, v: int)
    requires OnSide(d, m) && t in m && Best(d, t, m) && 0 < v <= t.volume
    ensures var s := Canon(d, m);
      && s != [] && SameKey(s[0], t) && t.volume <= s[0].volume
      && Take(s, v) == Canon(d, if v == t.volume then m - multiset{t}
                                else m - multiset{t} + multiset{t.(volume := t.volume - v)})
  {
    hide Canon, Add, Take;
    var k := m - multiset{t};
    assert m == k + multiset{t};
    CanonAdd(d, k, t);
    CanonSorted(d, k);
    var c := Canon(d, k);
    assert c != [] ==> c[0] in c;
    AddFront(d, c, t, v);
    if v < t.volume {
      CanonAdd(d, k, t.(volume := t.volume - v));
    }
  }

  lemma AddFront(d: Direction, c: seq<Order>, t: Order, v: int)
    requires c != [] ==> !Before(d, c[0], t) && c[0].volume > 0
    requires 0 < v <= t.volume
    ensures var s := Add(d, c, t);
      && s != [] && SameKey(s[0], t) && t.volume <= s[0].volume
      && Take(s, v) == if v == t.volume then c else Add(d, c, t.(volume := t.volume - v))
  {
    if c != [] {
      hide Add;
      var h, r := c[0], c[1..];
      assert c == [h] + r;
      AddCons(d, h, r, t);
      AddCons(d, h, r, t.(volume := t.volume - v));
      assert Before(d, t, h) ==> ([t] + c)[1..] == c;
    }
  }

  lemma {:induction false} TotalAdd(d: Direction, s: seq<Order>, o: Order)
    ensures Total(Add(d, s, o)) == Total(s) + o.volume
  {
    if s != [] && Before(d, s[0], o) {
      TotalAdd(d, s[1..], o);
    }
  }

  ghost predicate DistinctKeys(m: multiset<Order>) {
    && (forall a :: a in m ==> m[a] == 1)
    && (forall a, b :: a in m && b in m && SameKey(a, b) ==> a == b)
  }

  /** When all keys differ the list is exactly the resting orders in priority order. */
  lemma {:induction false} CanonIsSortedPermutation(d: Direction, m: multiset<Order>)
    requires OnSide(d, m) && DistinctKeys(m)
    ensures multiset(Canon(d, m)) == m && Sorted(d, Canon(d, m))
    decreases |m|
  {
    CanonSorted(d, m);
    if m != multiset{} {
      var o :| o in m && Canon(d, m) == Add(d, Canon(d, m - multiset{o}), o);
      var k := m - multiset{o};
      CanonIsSortedPermutation(d, k);
      OtherKeys(m, o, Canon(d, k));
      AddPermutes(d, Canon(d, k), o);
    }
  }

  /** Without ties the best order is the first entry. */
  lemma DistinctTop(d: Direction, m: multiset<Order>, t: Order)
    requires OnSide(d, m) && t in m && Best(d, t, m) && DistinctKeys(m) && t.volume > 0
    ensures Canon(d, m) != [] && Canon(d, m)[0] == t
  {
    hide Canon, Best;
    CanonTop(d, m, t, t.volume);
    CanonIsSortedPermutation(d, m);
    assert Canon(d, m)[0] in multiset(Canon(d, m));
  }

  /** Taking an order away or editing its volume makes no tie. */
  lemma DistinctEdit(m: multiset<Order>, t: Order, v: int)
    requires t in m && DistinctKeys(m)
    ensures DistinctKeys(m - multiset{t}) && DistinctKeys(m - multiset{t} + multiset{t.(volume := v)})
  {
    var k := m - multiset{t};
    assert forall x :: x in k ==> x in m && x != t;
  }

  /** An order whose key is not among the entries makes no tie. */
  lemma DistinctAdd(d: Direction, m: multiset<Order>, o: Order)
    requires OnSide(d, m) && DistinctKeys(m) && forall x :: x in Canon(d, m) ==> !SameKey(x, o)
    ensures DistinctKeys(m + multiset{o})
  {
    CanonIsSortedPermutation(d, m);
    forall x | x in m ensures !SameKey(x, o) {
      assert x in multiset(Canon(d, m));
    }
  }

  lemma OtherKeys(m: multiset<Order>, o: Order, c: seq<Order>)
    requires DistinctKeys(m) && o in m && multiset(c) == m - multiset{o}
    ensures forall x :: x in c ==> !SameKey(x, o)
    ensures m - multiset{o} + multiset{o} == m
  {
    forall x | x in c ensures !SameKey(x, o) {
      assert x in multiset(c) && o !in m - multiset{o};
    }
  }

  lemma {:induction false} AddPermutes(d: Direction, s: seq<Order>, o: Order)
    requires forall x :: x in s ==> !SameKey(x, o)
    ensures multiset(Add(d, s, o)) == multiset(s) + multiset{o}
  {
    if s != [] {
      assert s == [s[0]] + s[1..];
      if Before(d, s[0], o) {
        AddPermutes(d, s[1..], o);
      } else {
        assert s[0] in s;
      }
    }
  }

  // ----------------------------------------------------- orders popped in turn

  /** Orders taken out of a heap one after the other: none of the later ones and none of
      those still in m precedes an earlier one. */
  ghost predicate Queue(d: Direction, p: seq<Order>, m: multiset<Order>) {
    && (forall i :: 0 <= i < |p| ==> CanRest(d, p[i]))
    && (forall i, j :: 0 <= i <= j < |p| ==> !Before(d, p[j], p[i]))
    && (forall i, o :: 0 <= i < |p| && o in m ==> !Before(d, o, p[i]))
  }

  lemma QueueBest(d: Direction, p: seq<Order>, m: multiset<Order>)
    requires Queue(d, p, m) && p != []
    ensures Queue(d, p[1..], m) && p[0] in m + multiset(p) && Best(d, p[0], m + multiset(p))
    ensures m + multiset(p) == m + multiset(p[1..]) + multiset{p[0]}
  {
    assert p == [p[0]] + p[1..];
    forall o | o in m + multiset(p) ensures !Before(d, o, p[0]) {
      assert o in m || o in p;
    }
  }

  /** Trading v units of the first queued order away and putting what is left of it back;
      something is left only of the last one. */
  lemma QueueTake(d: Direction, q: seq<Order>, m: multiset<Order>, v: int)
    requires Queue(d, q, m) && OnSide(d, m) && q != [] && 0 < v <= q[0].volume
    requires v < q[0].volume ==> q[1..] == []
    ensures var s, t := Canon(d, m + multiset(q)), q[0];
      && s != [] && SameKey(s[0], t) && t.volume <= s[0].volume
    ensures var m' := if v == q[0].volume then m else m + multiset{q[0].(volume := q[0].volume - v)};
      && Queue(d, q[1..], m') && OnSide(d, m')
      && Canon(d, m' + multiset(q[1..])) == Take(Canon(d, m + multiset(q)), v)
      && m' + multiset(q[1..]) ==
           if v == q[0].volume then m + multiset(q) - multiset{q[0]}
           else m + multiset(q) - multiset{q[0]} + multiset{q[0].(volume := q[0].volume - v)}
  {
    hide Canon, Add, Take, Queue, Best, OnSide;
    var t, rest := q[0], multiset(q[1..]);
    QueueBest(d, q, m);
    QueueOnSide(d, q, m);
    CanonTop(d, m + multiset(q), t, v);
    assert m + multiset(q) - multiset{t} == m + rest;
    if v < t.volume {
      var x := t.(volume := t.volume - v);
      QueueStart(d, m + multiset{x});
      MovedUnion(m, rest, x);
      OnSideMore(d, m, x);
    }
  }

  lemma QueueOnSide(d: Direction, q: seq<Order>, m: multiset<Order>)
    requires Queue(d, q, m) && OnSide(d, m)
    ensures OnSide(d, m + multiset(q)) && forall o :: o in q ==> o.direction == d
  {
  }

  lemma OnSideMore(d: Direction, m: multiset<Order>, x: Order)
    requires OnSide(d, m) && CanRest(d, x)
    ensures OnSide(d, m + multiset{x})
  {
  }

  lemma MovedUnion(m: multiset<Order>, rest: multiset<Order>, x: Order)
    ensures m + multiset{x} + rest == m + rest + multiset{x}
  {
  }

  lemma QueueStart(d: Direction, m: multiset<Order>)
    ensures Queue(d, [], m) && m + multiset([]) == m && Total([]) == 0
  {
  }

  /** Popping one more order. */
  lemma QueuePop(d: Direction, p: seq<Order>, m: multiset<Order>, t: Order)
    requires Queue(d, p, m) && OnSide(d, m) && t in m && Best(d, t, m)
    ensures Queue(d, p + [t], m - multiset{t}) && OnSide(d, m - multiset{t})
    ensures m - multiset{t} + multiset(p + [t]) == m + multiset(p)
    ensures Total(p + [t]) == Total(p) + t.volume && (p + [t])[..|p|] == p
    ensures Total(Canon(d, m)) == Total(Canon(d, m - multiset{t})) + t.volume
  {
    hide Canon, Total;
    TotalSnoc(p, t);
    CanonTotal(d, m, t);
    QueueGrows(d, p, m, t);
  }

  lemma QueueGrows(d: Direction, p: seq<Order>, m: multiset<Order>, t: Order)
    requires Queue(d, p, m) && OnSide(d, m) && t in m && Best(d, t, m)
    ensures Queue(d, p + [t], m - multiset{t})
  {
    var q, k := p + [t], m - multiset{t};
    forall i, j | 0 <= i <= j < |q| ensures !Before(d, q[j], q[i]) {
      assert j == |p| ==> q[j] in m;
    }
    forall i, o | 0 <= i < |q| && o in k ensures !Before(d, o, q[i]) {
      assert o in m;
    }
  }

  /** The orders p were popped from m0 and m is left; all but the last of them are below
      the limit. */
  ghost predicate Collected(d: Direction, m0: multiset<Order>, p: seq<Order>, m: multiset<Order>, limit: int) {
    && m + multiset(p) == m0 && Queue(d, p, m)
    && (p != [] ==> Total(p[..|p| - 1]) < limit)
    && Total(Canon(d, m)) + Total(p) == Total(Canon(d, m0))
  }

  lemma CollectedStart(d: Direction, m: multiset<Order>, limit: int)
    ensures Collected(d, m, [], m, limit)
  {
    QueueStart(d, m);
  }

  lemma CollectedPop(d: Direction, m0: multiset<Order>, p: seq<Order>, m: multiset<Order>, limit: int, t: Order)
    requires Collected(d, m0, p, m, limit) && OnSide(d, m) && t in m && Best(d, t, m) && Total(p) < limit
    ensures Collected(d, m0, p + [t], m - multiset{t}, limit) && OnSide(d, m - multiset{t})
    ensures Total(p + [t]) == Total(p) + t.volume
  {
    hide Canon, Total, Queue;
    QueuePop(d, p, m, t);
  }

  lemma CollectedAll(d: Direction, m0: multiset<Order>, p: seq<Order>, m: multiset<Order>, limit: int)
    requires Collected(d, m0, p, m, limit) && OnSide(d, m)
    ensures m + multiset(p) == m0 && Queue(d, p, m)
    ensures p != [] ==> Total(p[..|p| - 1]) < limit
    ensures Total(p) >= limit || m == multiset{} ==> (Total(p) >= limit <==> Total(Canon(d, m0)) >= limit)
  {
    hide Total;
    TotalOfCanon(d, m);
  }

  lemma {:induction false} TotalSnoc(s: seq<Order>, o: Order)
    ensures Total(s + [o]) == Total(s) + o.volume
  {
    if s != [] {
      assert (s + [o])[1..] == s[1..] + [o];
      TotalSnoc(s[1..], o);
    }
  }

  lemma CanonTotal(d: Direction, m: multiset<Order>, o: Order)
    requires OnSide(d, m) && o in m
    ensures Total(Canon(d, m)) == Total(Canon(d, m - multiset{o})) + o.volume
  {
    assert m == m - multiset{o} + multiset{o};
    CanonAdd(d, m - multiset{o}, o);
    TotalAdd(d, Canon(d, m - multiset{o}), o);
  }

  lemma {:induction false} TotalPositive(d: Direction, s: seq<Order>)
    requires Sorted(d, s)
    ensures Total(s) >= |s|
  {
    if s != [] {
      TotalPositive(d, s[1..]);
    }
  }

  lemma TotalOfCanon(d: Direction, m: multiset<Order>)
    requires OnSide(d, m)
    ensures Total(Canon(d, m)) >= 0
    ensures m == multiset{} ==> Total(Canon(d, m)) == 0
  {
    CanonSorted(d, m);
    TotalPositive(d, Canon(d, m));
  }
}
