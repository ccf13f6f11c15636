/** The comparators and the rounding of the program as written, on real prices with the
    tolerance EPS, and when they agree with the exact ones on ticks. */
module EpsPrices {
  import opened Orders

  const EPS: real := 0.000001

  datatype RealOrder = RealOrder(price: real, timestamp: int, kind: nat)

  predicate Near(x: real, y: real) {
    -EPS <= x - y <= EPS
  }

  predicate RealBetter(d: Direction, p: real, q: real) {
    if d == Sale then p < q else p > q
  }

  /** The heap comparators. */
  predicate EpsBefore(d: Direction, a: RealOrder, b: RealOrder) {
    if !Near(a.price, b.price) then RealBetter(d, a.price, b.price)
    else if a.timestamp != b.timestamp then a.timestamp < b.timestamp
    else a.kind < b.kind
  }

  /** The exact lexicographic order. */
  predicate ExactBefore(d: Direction, a: RealOrder, b: RealOrder) {
    if a.price != b.price then RealBetter(d, a.price, b.price)
    else if a.timestamp != b.timestamp then a.timestamp < b.timestamp
    else a.kind < b.kind
  }

  predicate Tied(d: Direction, a: RealOrder, b: RealOrder) {
    !EpsBefore(d, a, b) && !EpsBefore(d, b, a)
  }

  /** A strict weak order on all orders priced in P: what a heap and a sort rely on. */
  ghost predicate StrictWeakOrder(d: Direction, P: set<real>) {
    && (forall a: RealOrder :: a.price in P ==> !EpsBefore(d, a, a))
    && (forall a: RealOrder, b: RealOrder, c: RealOrder :: a.price in P && b.price in P && c.price in P ==>
          EpsBefore(d, a, b) && EpsBefore(d, b, c) ==> EpsBefore(d, a, c))
    && (forall a: RealOrder, b: RealOrder, c: RealOrder :: a.price in P && b.price in P && c.price in P ==>
          Tied(d, a, b) && Tied(d, b, c) ==> Tied(d, a, c))
  }

  ghost predicate NearIsTransitive(P: set<real>) {
    forall p, q, r :: p in P && q in P && r in P && Near(p, q) && Near(q, r) ==> Near(p, r)
  }

  /** The comparators are an order exactly on the price sets where nearness is transitive. */
  lemma StrictWeakOrderIff(d: Direction, P: set<real>)
    ensures StrictWeakOrder(d, P) <==> NearIsTransitive(P)
  {
    if StrictWeakOrder(d, P) {
      forall p, q, r | p in P && q in P && r in P && Near(p, q) && Near(q, r)
        ensures Near(p, r)
      {
        var a, b, c := RealOrder(p, 3, 0), RealOrder(q, 2, 0), RealOrder(r, 1, 0);
        assert EpsBefore(d, c, b) && EpsBefore(d, b, a);
        var a', c' := RealOrder(p, 1, 0), RealOrder(r, 3, 0);
        assert EpsBefore(d, a', b) && EpsBefore(d, b, c');
        assert EpsBefore(d, c, a) && EpsBefore(d, a', c');
      }
    }
    if NearIsTransitive(P) {
      forall a: RealOrder, b: RealOrder, c: RealOrder
        | a.price in P && b.price in P && c.price in P && EpsBefore(d, a, b) && EpsBefore(d, b, c)
        ensures EpsBefore(d, a, c)
      {
        NearClasses(P, a.price, b.price, c.price);
      }
      forall a: RealOrder, b: RealOrder, c: RealOrder
        | a.price in P && b.price in P && c.price in P && Tied(d, a, b) && Tied(d, b, c)
        ensures Tied(d, a, c)
      {
        NearClasses(P, a.price, b.price, c.price);
      }
    }
  }

  lemma NearClasses(P: set<real>, p: real, q: real, r: real)
    requires NearIsTransitive(P) && p in P && q in P && r in P
    ensures Near(p, q) && Near(q, r) ==> Near(p, r)
    ensures Near(p, q) && !Near(q, r) ==> !Near(p, r)
    ensures !Near(p, q) && Near(q, r) ==> !Near(p, r)
  {
    assert Near(q, p) <==> Near(p, q);
    assert Near(r, q) <==> Near(q, r);
  }

  /** Three prices 0.0000008 apart: the first and the last one are told apart, but neither of
      them from the one between. */
  lemma NearPricesAreNoOrder(d: Direction)
    ensures !StrictWeakOrder(d, {10.0, 10.0000008, 10.0000016})
  {
    hide StrictWeakOrder;
    var P := {10.0, 10.0000008, 10.0000016};
    assert Near(10.0, 10.0000008) && Near(10.0000008, 10.0000016) && !Near(10.0, 10.0000016);
    assert !NearIsTransitive(P);
    StrictWeakOrderIff(d, P);
  }

  /** Distinct prices are further apart than the tolerance. */
  ghost predicate Spread(P: set<real>) {
    forall p, q :: p in P && q in P && Near(p, q) ==> p == q
  }

  /** The comparators say the same as the exact order of all orders priced in P. */
  ghost predicate AgreeExactly(d: Direction, P: set<real>) {
    forall a: RealOrder, b: RealOrder :: a.price in P && b.price in P ==>
      (EpsBefore(d, a, b) <==> ExactBefore(d, a, b))
  }

  /** The comparators are the exact order exactly on the spread price sets. */
  lemma ExactIff(d: Direction, P: set<real>)
    ensures Spread(P) <==> AgreeExactly(d, P)
  {
    if AgreeExactly(d, P) {
      forall p, q | p in P && q in P && Near(p, q) ensures p == q {
        var a, b := RealOrder(p, 0, 0), RealOrder(q, 0, 0);
        assert EpsBefore(d, a, b) <==> ExactBefore(d, a, b);
        assert EpsBefore(d, b, a) <==> ExactBefore(d, b, a);
      }
    }
  }

  // -------------------------------------------------------------- whole ticks

  function Price(ticks: int): real {
    ticks as real / 100.0
  }

  function Priced(o: Order): RealOrder {
    RealOrder(Price(o.price), o.timestamp, o.kind)
  }

  lemma TicksAreSpread(t: int, u: int)
    ensures Near(Price(t), Price(u)) <==> t == u
    ensures Price(t) < Price(u) <==> t < u
  {
  }

  /** On prices in whole ticks the comparators are the exact ones the heaps are proved with. */
  lemma TickComparators(d: Direction, a: Order, b: Order)
    ensures EpsBefore(d, Priced(a), Priced(b)) <==> Before(d, a, b)
  {
    TicksAreSpread(a.price, b.price);
    TicksAreSpread(b.price, a.price);
  }

  // ----------------------------------------------------------------- rounding

  /** Conversion to an integer type drops the fraction. */
  function Truncate(x: real): int {
    if x >= 0.0 then x.Floor else -(-x).Floor
  }

  /** Rounding to two decimals, as a number of ticks. */
  function RealRound2(x: real): int {
    Truncate(x * 100.0 + (0.5 + EPS))
  }

  function RealRound2CoverNegative(x: real): int {
    Truncate(x * 100.0 + (0.5 + EPS) * (if x < 0.0 then -1.0 else 1.0))
  }

  lemma FloorOf(x: real, n: int)
    requires n as real <= x < n as real + 1.0
    ensures x.Floor == n
  {
  }

  /** On multiples of a hundredth of a tick the rounding is the integer one. */
  lemma RoundingOnTicks(c: int)
    ensures RealRound2(c as real / 10000.0) == Round2(c)
    ensures RealRound2CoverNegative(c as real / 10000.0) == Round2CoverNegative(c)
  {
    var x := c as real / 10000.0;
    var h := c as real / 100.0;
    assert x * 100.0 == h;
    if c >= -50 {
      var q := (c + 50) / 100;
      assert 100 * q <= c + 50 <= 100 * q + 99;
      FloorOf(h + (0.5 + EPS), q);
    } else {
      var q := (-c - 51) / 100;
      assert 100 * q <= -c - 51 <= 100 * q + 99;
      FloorOf(-(h + (0.5 + EPS)), q);
    }
    if c >= 0 {
      var q := (c + 50) / 100;
      assert 100 * q <= c + 50 <= 100 * q + 99;
      FloorOf(h + (0.5 + EPS), q);
    } else {
      var q := (-c + 50) / 100;
      assert 100 * q <= -c + 50 <= 100 * q + 99;
      FloorOf(-(h - (0.5 + EPS)), q);
    }
  }
}
