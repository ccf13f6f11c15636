/** What each of the six order types does to an uncrossed book. */
module OrderTypes {
  import opened Orders
  import opened PriorityBook
  import opened Matching
  import opened ContractSpec
  import opened Accounting

  /** How many of the first entries a price reaches. */
  function CrossCount(inc: Order, s: seq<Order>): (k: nat)
    ensures k <= |s|
  {
    if s == [] || !Crosses(inc.direction, inc.price, s[0].price) then 0 else 1 + CrossCount(inc, s[1..])
  }

  lemma {:induction false} SameCrossCount(a: Order, b: Order, s: seq<Order>)
    requires a.direction == b.direction && a.price == b.price
    ensures CrossCount(a, s) == CrossCount(b, s)
  {
    if s != [] {
      SameCrossCount(a, b, s[1..]);
    }
  }

  lemma CrossCountTake(inc: Order, s: seq<Order>, v: int)
    requires s != [] && Crosses(inc.direction, inc.price, s[0].price)
    ensures var k := CrossCount(inc, s);
      k > 0 && CrossCount(Reduce(inc, v), Take(s, v)) == if v == s[0].volume then k - 1 else k
  {
    SameCrossCount(inc, Reduce(inc, v), s[1..]);
    assert v != s[0].volume ==> Take(s, v)[1..] == s[1..];
  }

  /** A limited sweep is an unlimited one of the entries that the price reaches. */
  lemma {:induction false} LimitedSweepIsPrefix(inc: Order, s: seq<Order>, a: Account)
    requires Sorted(Opposite(inc.direction), s)
    ensures Sweep(true, inc, s, a) == SweepWithin(inc, s, a, CrossCount(inc, s))
    decreases |s| + if inc.volume > 0 then 1 else 0
  {
    if Fit(true, inc, s) {
      hide TradeWith, SweepWithin, CrossCount, Sorted;
      var v := Min(inc.volume, s[0].volume);
      PositiveHead(Opposite(inc.direction), s, []);
      TakeSorted(Opposite(inc.direction), s, v);
      CrossCountTake(inc, s, v);
      LimitedSweepIsPrefix(Reduce(inc, v), Take(s, v), TradeWith(a, inc, s[0], v));
      SweepWithinPart(inc, s, a, CrossCount(inc, s), v);
    } else {
      SweepWithinDone(inc, s, a, if inc.volume <= 0 then CrossCount(inc, s) else 0);
    }
  }

  /** Taking from the first k entries executes the smaller of the order's volume and theirs,
      and leaves the deeper entries and the own side alone. */
  lemma TakenVolume(b: Book, o: Order, k: nat)
    requires GoodBook(b) && o.volume >= 0 && k <= |Opp(b, o.direction)|
    ensures var d, s, c := o.direction, Opp(b, o.direction), TakeOnly(b, o, k);
      && Own(c, d) == Own(b, d) && Total(s) - Total(Opp(c, d)) == Min(o.volume, Total(s[..k]))
      && |s| - k <= |Opp(c, d)| && Opp(c, d)[|Opp(c, d)| - (|s| - k)..] == s[k..]
  {
    hide Sweep;
    var s := Opp(b, o.direction);
    var r := Sweep(false, o, s[..k], b.acct);
    assert s == s[..k] + s[k..];
    TotalConcat(s[..k], s[k..]);
    TotalConcat(r.rest, s[k..]);
    SweepShape(false, o, s[..k], b.acct);
    SweepVolume(o, s[..k], b.acct);
  }

  lemma {:induction false} TotalConcat(s: seq<Order>, t: seq<Order>)
    ensures Total(s + t) == Total(s) + Total(t)
  {
    if s == [] {
      assert s + t == t;
    } else {
      assert (s + t)[1..] == s[1..] + t;
      TotalConcat(s[1..], t);
    }
  }

  /** The three types that may rest: the order trades with exactly the entries its price
      reaches, and only what they cannot fill rests. */
  lemma RestingTypes(b: Book, o: Order)
    requires GoodBook(b) && o.volume > 0
    ensures var d, s, k := o.direction, Opp(b, o.direction), CrossCount(o, Opp(b, o.direction));
      var c, left := Match(AddOrder(b, o)), o.volume - Min(o.volume, Total(s[..k]));
      && Opp(c, d) == Opp(TakeOnly(b, o, k), d) && c.acct == TakeOnly(b, o, k).acct
      && Own(c, d) == if left == 0 then Own(b, d) else Add(d, Own(b, d), o.(volume := left))
  {
    hide Sweep, Match, Add, CrossCount, Total;
    var s, k := Opp(b, o.direction), CrossCount(o, Opp(b, o.direction));
    MatchIsSweep(b, o);
    LimitedSweepIsPrefix(o, s, b.acct);
    SweepVolume(o, s[..k], b.acct);
    SweepShape(false, o, s[..k], b.acct);
  }

  /** An order at the own side's best price never trades. */
  lemma OurBestNeverTrades(l: Limits, b: Book, o: Order)
    requires GoodBook(b) && o.volume > 0 && o.kind == OUR_BEST_PRICE
    ensures var d, c := o.direction, Place(l, b, o);
      && Opp(c, d) == Opp(b, d) && c.acct == b.acct
      && Own(c, d) == if Own(b, d) == [] then [] else Add(d, Own(b, d), o.(price := Own(b, d)[0].price))
  {
    hide Sweep, Add;
    var d := o.direction;
    if Own(b, d) != [] {
      var p := o.(price := Own(b, d)[0].price);
      MatchIsSweep(b, p);
      assert !Fit(true, p, Opp(b, d));
      SweepStops(true, p, Opp(b, d), b.acct);
    }
  }

  lemma SweepStops(limited: bool, inc: Order, s: seq<Order>, a: Account)
    requires !Fit(limited, inc, s)
    ensures Sweep(limited, inc, s, a) == Swept(inc, s, a)
  {
  }

  /** An order at the opposite side's best price is dropped when that side is empty, and reaches
      exactly the entries at that price otherwise. */
  lemma OppositeBestReachesOneLevel(l: Limits, b: Book, o: Order)
    requires GoodBook(b) && o.volume > 0 && o.kind == OPPOSITE_BEST_PRICE
    ensures var s := if o.direction == Buy then b.sells else b.buys;
      if s == [] then Place(l, b, o) == b
      else
        var p := o.(price := s[0].price);
        var k := CrossCount(p, s);
        && Place(l, b, o) == Match(AddOrder(b, p)) && k > 0
        && forall i :: 0 <= i < |s| ==> (s[i].price == s[0].price <==> i < k)
  {
    hide Match;
    var s := Opp(b, o.direction);
    if s == [] {
      NotCrossedStays(b);
    } else {
      CrossCountIsBoundary(o.(price := s[0].price), s);
      forall i | 0 <= i < |s|
        ensures !BetterPrice(Opposite(o.direction), s[i].price, s[0].price)
      {
        assert i > 0 ==> Before(Opposite(o.direction), s[0], s[i]);
      }
    }
  }

  lemma {:induction false} CrossCountIsBoundary(inc: Order, s: seq<Order>)
    requires Sorted(Opposite(inc.direction), s)
    ensures forall i :: 0 <= i < |s| ==> (Crosses(inc.direction, inc.price, s[i].price) <==> i < CrossCount(inc, s))
  {
    if s != [] {
      CrossCountIsBoundary(inc, s[1..]);
      forall i | 0 <= i < |s|
        ensures Crosses(inc.direction, inc.price, s[i].price) <==> i < CrossCount(inc, s)
      {
        if i > 0 {
          assert s[1..][i - 1] == s[i] && Before(Opposite(inc.direction), s[0], s[i]);
        }
      }
    }
  }

  /** The taking types: five price levels (six if the best is -1.00), the whole side, or the
      whole side if and only if it covers the order, and otherwise nothing at all. Any other
      type does nothing. */
  lemma TakingTypes(l: Limits, b: Book, o: Order)
    requires GoodBook(b) && o.volume > 0
    ensures var d, s, c := o.direction, Opp(b, o.direction), Place(l, b, o);
      var executed := Total(s) - Total(Opp(c, d));
      && (o.kind == BEST_FIVE_PRICE_NO_LEFT ==>
            c == TakeOnly(b, o, Reach(s, 0, -100)) && executed == Min(o.volume, Total(s[..Reach(s, 0, -100)])))
      && (o.kind == IMMEDIATE_DEAL_NO_LEFT ==> c == TakeOnly(b, o, |s|) && executed == Min(o.volume, Total(s)))
      && (o.kind == ALL_OR_NOTHING ==>
            && (executed == o.volume <==> Total(s) >= o.volume)
            && (c == if executed == o.volume then TakeOnly(b, o, |s|) else b))
      && (o.kind > ALL_OR_NOTHING ==> c == b)
  {
    var s := Opp(b, o.direction);
    assert s[..|s|] == s;
    TakenVolume(b, o, Reach(s, 0, -100));
    TakenVolume(b, o, |s|);
  }

  // ---------------------------------------------------- priority among the resting

  /** Better price first, then the earlier order, then the smaller type, own orders last. */
  predicate GoesFirst(d: Direction, a: Order, b: Order) {
    || (d == Sale && a.price < b.price) || (d == Buy && a.price > b.price)
    || (a.price == b.price && a.timestamp < b.timestamp)
    || (a.price == b.price && a.timestamp == b.timestamp && a.kind < b.kind)
  }

  /** rest is s from entry m on, whose volume may have changed. */
  ghost predicate IsTail(rest: seq<Order>, s: seq<Order>, m: nat) {
    && m <= |s|
    && if m == |s| then rest == []
       else rest != [] && rest[0] == s[m].(volume := rest[0].volume) && rest[1..] == s[m + 1..]
  }

  lemma TailOfTake(rest: seq<Order>, s: seq<Order>, v: int, m: nat)
    requires s != [] && IsTail(rest, Take(s, v), m)
    ensures IsTail(rest, s, if v == s[0].volume then m + 1 else m)
  {
    assert m < |s| && v == s[0].volume ==> m + 1 <= |s| && s[1..][m..] == s[m + 1..];
    assert v == s[0].volume && m + 1 < |s| ==> s[1..][m + 1..] == s[m + 2..];
    assert v != s[0].volume && m < |s| ==> Take(s, v)[m + 1..] == s[m + 1..];
  }

  lemma TailHas(rest: seq<Order>, s: seq<Order>, m: nat, j: nat)
    requires IsTail(rest, s, m) && m < j < |s|
    ensures s[j] in rest
  {
    assert s[j] == s[m + 1..][j - m - 1];
  }

  /** An entry of the tail has the key of one of s from m on. */
  lemma TailKeys(rest: seq<Order>, s: seq<Order>, m: nat, z: Order) returns (k: nat)
    requires IsTail(rest, s, m) && z in rest
    ensures m <= k < |s| && SameKey(s[k], z)
  {
    var i :| 0 <= i < |rest| && rest[i] == z;
    k := m + i;
    assert i > 0 ==> rest[i] == rest[1..][i - 1] && s[m + 1..][i - 1] == s[k];
  }

  /** What a sweep leaves is a tail of the side, its first entry perhaps reduced. */
  lemma {:induction false} SweepLeavesTail(limited: bool, inc: Order, s: seq<Order>, a: Account) returns (m: nat)
    requires Sorted(Opposite(inc.direction), s)
    ensures IsTail(Sweep(limited, inc, s, a).rest, s, m)
    decreases |s| + if inc.volume > 0 then 1 else 0
  {
    m := 0;
    if Fit(limited, inc, s) {
      hide TradeWith, Sorted, IsTail, Take, Sweep;
      var v := Min(inc.volume, s[0].volume);
      PositiveHead(Opposite(inc.direction), s, []);
      TakeSorted(Opposite(inc.direction), s, v);
      TakeShorter(s, v, inc);
      m := SweepLeavesTail(limited, Reduce(inc, v), Take(s, v), TradeWith(a, inc, s[0], v));
      SweepUnfold(limited, inc, s, a);
      TailOfTake(Sweep(limited, inc, s, a).rest, s, v, m);
      m := if v == s[0].volume then m + 1 else m;
    }
  }

  lemma TakeShorter(s: seq<Order>, v: int, inc: Order)
    requires s != [] && v == Min(inc.volume, s[0].volume) && inc.volume > 0
    ensures |Take(s, v)| + (if inc.volume - v > 0 then 1 else 0) < |s| + 1
  {
  }

  /** An entry is touched only when all that go before it are used up. */
  lemma PriorityIsKept(limited: bool, inc: Order, s: seq<Order>, a: Account, x: Order, y: Order)
    requires Sorted(Opposite(inc.direction), s) && x in s && y in s && GoesFirst(Opposite(inc.direction), x, y)
    requires y !in Sweep(limited, inc, s, a).rest
    ensures forall z :: z in Sweep(limited, inc, s, a).rest ==> !SameKey(x, z)
  {
    hide Sweep, IsTail;
    var d, rest := Opposite(inc.direction), Sweep(limited, inc, s, a).rest;
    var m := SweepLeavesTail(limited, inc, s, a);
    var i :| 0 <= i < |s| && s[i] == x;
    var j :| 0 <= j < |s| && s[j] == y;
    assert j < i ==> Before(d, s[j], s[i]);
    if j > m {
      TailHas(rest, s, m, j);
      assert false;
    }
    forall z | z in rest ensures !SameKey(x, z) {
      var k := TailKeys(rest, s, m, z);
      assert Before(d, s[i], s[k]);
    }
  }

  // ----------------------------------------------------------------- TWAP orders

  /** The base price is the quote of the two sides. */
  lemma BaseIsQuote(b: Book, d: Direction)
    requires GoodBook(b)
    ensures QuoteOf(multiset(b.sells), multiset(b.buys), b.acct.lastPrice, d, BasePrice(b, d))
  {
    hide Sorted, Cheapest, Dearest, Best;
    NoOrders(b.sells);
    NoOrders(b.buys);
    if b.sells != [] {
      FirstIsBest(Sale, b.sells);
      BestQuote(Sale, multiset(b.sells), b.sells[0]);
    }
    if b.buys != [] {
      FirstIsBest(Buy, b.buys);
      BestQuote(Buy, multiset(b.buys), b.buys[0]);
    }
  }

  lemma NoOrders(s: seq<Order>)
    ensures multiset(s) == multiset{} <==> s == []
  {
    assert |multiset(s)| == |s|;
  }

  /** Volume of the entries at price p. */
  function VolumeAt(s: seq<Order>, p: int): int {
    if s == [] then 0 else (if s[0].price == p then s[0].volume else 0) + VolumeAt(s[1..], p)
  }

  lemma {:induction false} VolumeAtPrefix(s: seq<Order>, p: int, k: nat)
    requires k <= |s| && forall i :: 0 <= i < |s| ==> (s[i].price == p <==> i < k)
    ensures VolumeAt(s, p) == Total(s[..k])
  {
    if s != [] {
      VolumeAtPrefix(s[1..], p, if k > 0 then k - 1 else 0);
      assert k > 0 ==> s[..k][1..] == s[1..][..k - 1];
    }
  }

  /** An injected slice that finds an opposite side trades at its best price: it executes the
      smaller of its volume and all that is offered at that price. */
  lemma SliceTakesBestLevel(st: State)
    requires GoodBook(st.book) && st.head < |st.twaps| && st.twaps[st.head].volume >= 0
    ensures var slice, end := st.twaps[st.head], InjectOne(st).book;
      var opp, left := if slice.direction == Buy then st.book.sells else st.book.buys,
                       if slice.direction == Buy then end.sells else end.buys;
      opp != [] ==> Total(opp) - Total(left) == Min(slice.volume, VolumeAt(opp, opp[0].price))
  {
    hide Sweep, Match, Add, Total, CrossCount, Sorted, VolumeAt;
    var b, slice := st.book, st.twaps[st.head];
    var d, s := slice.direction, Opp(st.book, slice.direction);
    if s != [] {
      var o := slice.(price := s[0].price);
      var k := CrossCount(o, s);
      OneLevel(o, s);
      VolumeAtPrefix(s, s[0].price, k);
      PrefixTotal(Opposite(d), s, k);
      if slice.volume > 0 {
        RestingTypes(b, o);
        TakenVolume(b, o, k);
      } else {
        NotCrossedStays(b);
      }
    }
  }

  lemma OneLevel(o: Order, s: seq<Order>)
    requires Sorted(Opposite(o.direction), s) && s != [] && o.price == s[0].price
    ensures forall i :: 0 <= i < |s| ==> (s[i].price == s[0].price <==> i < CrossCount(o, s))
  {
    CrossCountIsBoundary(o, s);
    forall i | 0 <= i < |s| ensures !BetterPrice(Opposite(o.direction), s[i].price, s[0].price) {
      assert i > 0 ==> Before(Opposite(o.direction), s[0], s[i]);
    }
  }

  lemma PrefixTotal(d: Direction, s: seq<Order>, k: nat)
    requires Sorted(d, s) && k <= |s|
    ensures Total(s[..k]) >= 0
  {
    TotalPositive(d, s[..k]);
  }
}
