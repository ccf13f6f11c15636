/** Matching on the two sorted sides: what a trade does, the sweep of one side by an incoming
    order, and the continuous matching of the two best orders. */
module Matching {
  import opened Orders
  import opened PriorityBook

  /** How an order appears on the tape. */
  datatype Party = Party(price: int, timestamp: int, kind: nat)

  datatype Fill = Fill(sale: Party, buy: Party, price: int, volume: int)

  datatype Account = Account(position: int, lastPrice: int, tape: seq<Fill>)

  datatype Book = Book(sells: seq<Order>, buys: seq<Order>, acct: Account)

  /** The incoming order with what is left of it, the swept side and the account. */
  datatype Swept = Swept(inc: Order, rest: seq<Order>, acct: Account)

  // ----------------------------------------------------------------- one trade

  function PartyOf(o: Order): Party {
    Party(o.price, o.timestamp, o.kind)
  }

  /** The earlier order's price; the sale's when the timestamps are equal. */
  function TradePrice(sale: Order, buy: Order): int {
    if sale.price == buy.price then sale.price
    else if sale.timestamp > buy.timestamp then buy.price
    else sale.price
  }

  /** What a fill adds to our position: own sales are booked first, so a fill with own orders
      on both sides counts as a sale. */
  function OwnSign(f: Fill): int {
    if f.sale.kind == MY_CONTRACT then -1 else if f.buy.kind == MY_CONTRACT then 1 else 0
  }

  predicate SamePrint(f: Fill, g: Fill) {
    f.sale == g.sale && f.buy == g.buy && f.price == g.price
  }

  /** The tape: consecutive fills between the same two parties form one line. */
  function Push(tape: seq<Fill>, f: Fill): seq<Fill> {
    if tape != [] && SamePrint(tape[|tape| - 1], f)
    then tape[..|tape| - 1] + [f.(volume := tape[|tape| - 1].volume + f.volume)]
    else tape + [f]
  }

  function FillOf(sale: Order, buy: Order, v: int): Fill {
    Fill(PartyOf(sale), PartyOf(buy), TradePrice(sale, buy), v)
  }

  function Trade(a: Account, sale: Order, buy: Order, v: int): Account {
    var f := FillOf(sale, buy, v);
    Account(a.position + OwnSign(f) * v, f.price, Push(a.tape, f))
  }

  /** A fill of an incoming order with a resting one. */
  function FillWith(inc: Order, rest: Order, v: int): Fill {
    if inc.direction == Sale then FillOf(inc, rest, v) else FillOf(rest, inc, v)
  }

  function TradeWith(a: Account, inc: Order, rest: Order, v: int): Account {
    if inc.direction == Sale then Trade(a, inc, rest, v) else Trade(a, rest, inc, v)
  }

  /** Trading v and then w units between the same parties is one trade of v + w. */
  lemma TradeTwice(a: Account, sale: Order, buy: Order, v: int, w: int)
    ensures Trade(Trade(a, sale, buy, v), sale, buy, w) == Trade(a, sale, buy, v + w)
  {
    var f, g := FillOf(sale, buy, v), FillOf(sale, buy, w);
    var t := Push(a.tape, f);
    assert SamePrint(t[|t| - 1], g);
    assert t[..|t| - 1] ==
      if a.tape != [] && SamePrint(a.tape[|a.tape| - 1], f) then a.tape[..|a.tape| - 1] else a.tape;
    assert OwnSign(f) == OwnSign(g);
  }

  // -------------------------------------------------------------------- sweep

  predicate Fit(limited: bool, inc: Order, rest: seq<Order>) {
    inc.volume > 0 && rest != [] && (limited ==> Crosses(inc.direction, inc.price, rest[0].price))
  }

  function Reduce(o: Order, v: int): Order {
    o.(volume := o.volume - v)
  }

  /** The incoming order takes the best resting orders one after the other; a limited one
      stops at the first price it does not reach. */
  function Sweep(limited: bool, inc: Order, rest: seq<Order>, a: Account): Swept
    decreases |rest| + if inc.volume > 0 then 1 else 0
  {
    if !Fit(limited, inc, rest) then Swept(inc, rest, a)
    else
      var v := Min(inc.volume, rest[0].volume);
      Sweep(limited, Reduce(inc, v), Take(rest, v), TradeWith(a, inc, rest[0], v))
  }

  lemma TakeTwice(s: seq<Order>, v: int, w: int)
    requires s != [] && v != s[0].volume && v + w <= s[0].volume
    ensures var t := Take(s, v);
      && t != [] && t[0] == Reduce(s[0], v) && Take(t, w) == Take(s, v + w)
  {
  }

  lemma SameKeySameTrade(a: Account, inc: Order, r: Order, r': Order, v: int)
    requires SameKey(r, r')
    ensures TradeWith(a, inc, r, v) == TradeWith(a, inc, r', v) && FillWith(inc, r, v) == FillWith(inc, r', v)
  {
  }

  lemma TradeWithTwice(a: Account, inc: Order, rest: Order, v: int, w: int)
    ensures TradeWith(TradeWith(a, inc, rest, v), Reduce(inc, v), Reduce(rest, v), w) == TradeWith(a, inc, rest, v + w)
  {
    if inc.direction == Sale {
      TradeTwice(a, inc, rest, v, w);
    } else {
      TradeTwice(a, rest, inc, v, w);
    }
  }

  /** Two sweeps whose first trades lead to the same place end in the same place. */
  lemma SweepsMeet(limited: bool, inc: Order, rest: seq<Order>, a: Account, inc': Order, rest': seq<Order>, a': Account)
    requires Fit(limited, inc, rest) && Fit(limited, inc', rest')
    requires var v, w := Min(inc.volume, rest[0].volume), Min(inc'.volume, rest'[0].volume);
      && Reduce(inc, v) == Reduce(inc', w) && Take(rest, v) == Take(rest', w)
      && TradeWith(a, inc, rest[0], v) == TradeWith(a', inc', rest'[0], w)
    ensures Sweep(limited, inc, rest, a) == Sweep(limited, inc', rest', a')
  {
  }

  lemma StepTwice(inc: Order, rest: seq<Order>, a: Account, v: int, w: int)
    requires rest != [] && v != rest[0].volume && v + w <= rest[0].volume
    ensures var inc', rest', a' := Reduce(inc, v), Take(rest, v), TradeWith(a, inc, rest[0], v);
      && rest' != [] && rest'[0] == Reduce(rest[0], v)
      && Reduce(inc', w) == Reduce(inc, v + w) && Take(rest', w) == Take(rest, v + w)
      && TradeWith(a', inc', rest'[0], w) == TradeWith(a, inc, rest[0], v + w)
  {
    TakeTwice(rest, v, w);
    TradeWithTwice(a, inc, rest[0], v, w);
  }

  /** Trading only a part of what the best entry offers does not change where the sweep ends. */
  lemma SweepPart(limited: bool, inc: Order, rest: seq<Order>, a: Account, v: int)
    requires Fit(limited, inc, rest) && 0 < v <= Min(inc.volume, rest[0].volume)
    ensures Sweep(limited, inc, rest, a)
         == Sweep(limited, Reduce(inc, v), Take(rest, v), TradeWith(a, inc, rest[0], v))
  {
    hide Sweep, Take, TradeWith;
    var m := Min(inc.volume, rest[0].volume);
    if v < m {
      StepTwice(inc, rest, a, v, m - v);
      SweepsMeet(limited, inc, rest, a, Reduce(inc, v), Take(rest, v), TradeWith(a, inc, rest[0], v));
    } else {
      SweepUnfold(limited, inc, rest, a);
    }
  }

  lemma SweepUnfold(limited: bool, inc: Order, rest: seq<Order>, a: Account)
    requires Fit(limited, inc, rest)
    ensures var v := Min(inc.volume, rest[0].volume);
      Sweep(limited, inc, rest, a) == Sweep(limited, Reduce(inc, v), Take(rest, v), TradeWith(a, inc, rest[0], v))
  {
  }

  lemma TakeSorted(d: Direction, s: seq<Order>, v: int)
    requires Sorted(d, s) && s != [] && 0 < v <= s[0].volume
    ensures Sorted(d, Take(s, v)) && Total(Take(s, v)) == Total(s) - v
    ensures var t := Take(s, v); t != [] ==> t[0].price == s[0].price || BetterPrice(d, s[0].price, t[0].price)
  {
    assert Take(s, v) != [] && v < s[0].volume ==> Take(s, v)[1..] == s[1..];
  }

  /** Volume is conserved by a sweep, it stops only when it must, and the rest stays a side. */
  lemma {:induction false} SweepShape(limited: bool, inc: Order, rest: seq<Order>, a: Account)
    requires Sorted(Opposite(inc.direction), rest) && inc.volume >= 0
    ensures var r := Sweep(limited, inc, rest, a);
      && Sorted(Opposite(inc.direction), r.rest) && !Fit(limited, r.inc, r.rest)
      && 0 <= r.inc.volume <= inc.volume && r.inc == inc.(volume := r.inc.volume)
      && Total(rest) - Total(r.rest) == inc.volume - r.inc.volume
      && (r.rest != [] ==> rest != [] && !BetterPrice(Opposite(inc.direction), r.rest[0].price, rest[0].price))
    decreases |rest| + if inc.volume > 0 then 1 else 0
  {
    if Fit(limited, inc, rest) {
      var v := Min(inc.volume, rest[0].volume);
      TakeSorted(Opposite(inc.direction), rest, v);
      SweepShape(limited, Reduce(inc, v), Take(rest, v), TradeWith(a, inc, rest[0], v));
    }
  }

  /** An unlimited sweep executes the smaller of the order's volume and the whole side. */
  lemma SweepVolume(inc: Order, rest: seq<Order>, a: Account)
    requires Sorted(Opposite(inc.direction), rest) && inc.volume >= 0
    ensures inc.volume - Sweep(false, inc, rest, a).inc.volume == Min(inc.volume, Total(rest))
    ensures Sweep(false, inc, rest, a).inc.volume == 0 <==> Total(rest) >= inc.volume
  {
    SweepShape(false, inc, rest, a);
    TotalPositive(Opposite(inc.direction), Sweep(false, inc, rest, a).rest);
  }

  // ------------------------------------------------------- continuous matching

  predicate Crossed(b: Book) {
    b.sells != [] && b.buys != [] && b.sells[0].price <= b.buys[0].price
  }

  /** v units trade between the two best entries. */
  function TradeTops(b: Book, v: int): Book
    requires Crossed(b)
  {
    Book(Take(b.sells, v), Take(b.buys, v), Trade(b.acct, b.sells[0], b.buys[0], v))
  }

  /** The two best entries trade for as long as the book is crossed. */
  function Match(b: Book): Book
    decreases |b.sells| + |b.buys|
  {
    if !Crossed(b) then b else Match(TradeTops(b, Min(b.sells[0].volume, b.buys[0].volume)))
  }

  /** Two crossed books whose first trades lead to the same book have the same match. */
  lemma MatchesMeet(b: Book, c: Book)
    requires Crossed(b) && Crossed(c)
    requires TradeTops(b, Min(b.sells[0].volume, b.buys[0].volume))
          == TradeTops(c, Min(c.sells[0].volume, c.buys[0].volume))
    ensures Match(b) == Match(c)
  {
  }

  lemma MatchPart(b: Book, v: int)
    requires Crossed(b) && 0 < v <= Min(b.sells[0].volume, b.buys[0].volume)
    ensures Match(b) == Match(TradeTops(b, v))
  {
    hide Match, Take, Push;
    var m := Min(b.sells[0].volume, b.buys[0].volume);
    if v < m {
      TakeTwice(b.sells, v, m - v);
      TakeTwice(b.buys, v, m - v);
      TradeTwice(b.acct, b.sells[0], b.buys[0], v, m - v);
      MatchesMeet(b, TradeTops(b, v));
    } else {
      MatchUnfold(b);
    }
  }

  lemma MatchUnfold(b: Book)
    requires Crossed(b)
    ensures Match(b) == Match(TradeTops(b, Min(b.sells[0].volume, b.buys[0].volume)))
  {
  }

  lemma NotCrossedStays(b: Book)
    requires !Crossed(b)
    ensures Match(b) == b
  {
  }

  // --------------------------------------------- the book seen from one direction

  function Own(b: Book, d: Direction): seq<Order> {
    if d == Sale then b.sells else b.buys
  }

  function Opp(b: Book, d: Direction): seq<Order> {
    Own(b, Opposite(d))
  }

  function MakeBook(d: Direction, own: seq<Order>, opp: seq<Order>, a: Account): Book {
    if d == Sale then Book(own, opp, a) else Book(opp, own, a)
  }

  function AddOrder(b: Book, o: Order): Book {
    MakeBook(o.direction, Add(o.direction, Own(b, o.direction), o), Opp(b, o.direction), b.acct)
  }

  ghost predicate WellFormed(b: Book) {
    Sorted(Sale, b.sells) && Sorted(Buy, b.buys)
  }

  /** One trade of an incoming order at the front of its side. */
  lemma FrontStep(inc: Order, own: seq<Order>, opp: seq<Order>, a: Account, v: int)
    requires Crossed(MakeBook(inc.direction, [inc] + own, opp, a)) && v == Min(inc.volume, opp[0].volume)
    ensures Fit(true, inc, opp) || inc.volume <= 0
    ensures TradeTops(MakeBook(inc.direction, [inc] + own, opp, a), v)
         == MakeBook(inc.direction, if inc.volume == v then own else [Reduce(inc, v)] + own,
                     Take(opp, v), TradeWith(a, inc, opp[0], v))
  {
    assert ([inc] + own)[1..] == own;
  }

  /** The incoming order at the front of its side is one party of every trade of the match. */
  lemma {:induction false} MatchFront(inc: Order, own: seq<Order>, opp: seq<Order>, a: Account)
    requires var d := inc.direction;
      && CanRest(d, inc) && Sorted(d, own) && Sorted(Opposite(d), opp)
      && !Crossed(MakeBook(d, own, opp, a)) && (own != [] ==> Before(d, inc, own[0]))
    ensures var d, r := inc.direction, Sweep(true, inc, opp, a);
      && Match(MakeBook(d, [inc] + own, opp, a))
         == MakeBook(d, if r.inc.volume == 0 then own else [r.inc] + own, r.rest, r.acct)
      && !Crossed(Match(MakeBook(d, [inc] + own, opp, a)))
    decreases |opp| + inc.volume
  {
    hide TradeWith, Trade;
    var d := inc.direction;
    var b := MakeBook(d, [inc] + own, opp, a);
    if Crossed(b) {
      var v := Min(inc.volume, opp[0].volume);
      var inc', opp', a' := Reduce(inc, v), Take(opp, v), TradeWith(a, inc, opp[0], v);
      FrontStep(inc, own, opp, a, v);
      TakeSorted(Opposite(d), opp, v);
      if inc'.volume == 0 {
        assert !Crossed(TradeTops(b, v));
      } else {
        MatchFront(inc', own, opp', a');
      }
    }
  }

  /** Matching after an order arrives at an uncrossed book is exactly the sweep of the
      opposite side by that order; what is left of it rests, and the book is uncrossed again. */
  lemma MatchIsSweep(b: Book, o: Order)
    requires WellFormed(b) && !Crossed(b) && CanRest(o.direction, o)
    ensures var d, r := o.direction, Sweep(true, o, Opp(b, o.direction), b.acct);
      && Match(AddOrder(b, o))
         == MakeBook(d, if r.inc.volume == 0 then Own(b, d) else Add(d, Own(b, d), r.inc), r.rest, r.acct)
      && !Crossed(Match(AddOrder(b, o))) && WellFormed(Match(AddOrder(b, o)))
  {
    var d := o.direction;
    var own, opp := Own(b, d), Opp(b, d);
    AddSorted(d, own, o);
    if opp != [] && Crosses(d, o.price, opp[0].price) {
      assert own != [] ==> Before(d, o, own[0]);
      assert Add(d, own, o) == [o] + own;
      MatchFront(o, own, opp, b.acct);
      SweepShape(true, o, opp, b.acct);
      var r := Sweep(true, o, opp, b.acct);
      if r.inc.volume > 0 {
        assert Add(d, own, r.inc) == [r.inc] + own;
        AddSorted(d, own, r.inc);
      }
    }
  }

  // ------------------------------------------------------------- price levels

  /** How many entries are in reach when n price levels have been counted, the last of them
      at price p, and a sixth level stops the order. */
  function Reach(s: seq<Order>, n: int, p: int): (k: nat)
    ensures k <= |s|
  {
    if s == [] then 0
    else if s[0].price == p then 1 + Reach(s[1..], n, p)
    else if n >= 5 then 0
    else 1 + Reach(s[1..], n + 1, s[0].price)
  }

  /** An unlimited sweep of the first k entries; the deeper ones stay as they are. */
  function SweepWithin(inc: Order, s: seq<Order>, a: Account, k: nat): Swept
    requires k <= |s|
  {
    var r := Sweep(false, inc, s[..k], a);
    Swept(r.inc, r.rest + s[k..], r.acct)
  }

  lemma TakeWithin(s: seq<Order>, k: nat, v: int)
    requires 0 < k <= |s|
    ensures var t, k' := Take(s, v), if v == s[0].volume then k - 1 else k;
      && k' <= |t| && Take(s[..k], v) == t[..k'] && s[k..] == t[k'..]
  {
    assert s[..k][1..] == s[1..][..k - 1] && s[k..] == s[1..][k - 1..];
  }

  /** A (partial) trade with the best entry keeps the place where the sweep ends. */
  lemma SweepWithinPart(inc: Order, s: seq<Order>, a: Account, k: nat, v: int)
    requires 0 < k <= |s| && inc.volume > 0 && 0 < v <= Min(inc.volume, s[0].volume)
    ensures SweepWithin(inc, s, a, k)
         == SweepWithin(Reduce(inc, v), Take(s, v), TradeWith(a, inc, s[0], v), if v == s[0].volume then k - 1 else k)
  {
    hide TradeWith;
    TakeWithin(s, k, v);
    SweepPart(false, inc, s[..k], a, v);
  }

  lemma ReachTake(s: seq<Order>, n: int, v: int)
    requires s != []
    ensures var k := Reach(s, n, s[0].price);
      && k > 0 && Reach(Take(s, v), n, s[0].price) == if v == s[0].volume then k - 1 else k
  {
    if v != s[0].volume {
      assert Take(s, v)[1..] == s[1..];
    }
  }

  /** Seeing a new price uses up a level; the sixth one is out of reach. */
  lemma NewLevel(s: seq<Order>, n: int, p: int)
    requires s != [] && s[0].price != p
    ensures Reach(s, n, p) == if n >= 5 then 0 else Reach(s, n + 1, s[0].price)
  {
  }

  /** A sweep that has nothing left to trade is at its end. */
  lemma SweepWithinDone(inc: Order, s: seq<Order>, a: Account, k: nat)
    requires k <= |s| && (inc.volume <= 0 || k == 0)
    ensures SweepWithin(inc, s, a, k) == Swept(inc, s, a)
  {
    assert s[..k] + s[k..] == s;
  }

  /** What a sweep leaves of the entries in reach still goes before the ones out of reach. */
  lemma {:induction false} SweepKeepsOrder(inc: Order, p: seq<Order>, q: seq<Order>, a: Account)
    requires Sorted(Opposite(inc.direction), p + q)
    ensures var d, t := Opposite(inc.direction), Sweep(false, inc, p, a).rest + q;
      && Sorted(d, t)
      && (t != [] ==> p + q != [] && !BetterPrice(d, t[0].price, (p + q)[0].price))
    decreases |p| + if inc.volume > 0 then 1 else 0
  {
    if Fit(false, inc, p) {
      hide TradeWith, Sorted;
      var d, v := Opposite(inc.direction), Min(inc.volume, p[0].volume);
      PositiveHead(d, p, q);
      TakeSorted(d, p + q, v);
      TakeWithin(p + q, |p|, v);
      assert (p + q)[..|p|] == p && (p + q)[|p|..] == q;
      assert Take(p + q, v) == Take(p, v) + q;
      SweepKeepsOrder(Reduce(inc, v), Take(p, v), q, TradeWith(a, inc, p[0], v));
    }
  }

  lemma PositiveHead(d: Direction, p: seq<Order>, q: seq<Order>)
    requires Sorted(d, p + q) && p != []
    ensures p[0].volume > 0
  {
    assert (p + q)[0] == p[0];
  }

  ghost function Prices(s: seq<Order>): set<int> {
    set i | 0 <= i < |s| :: s[i].price
  }

  /** The entries in reach of an order that has seen no level yet are those of the five best
      prices, and of the six best ones when the best price is -1.00, the value that the
      level counter starts from. */
  lemma ReachIsFiveLevels(d: Direction, s: seq<Order>)
    requires Sorted(d, s)
    ensures var k, levels := Reach(s, 0, -100), if s != [] && s[0].price == -100 then 6 else 5;
      && |Prices(s[..k])| <= levels
      && (k < |s| ==> |Prices(s[..k])| == levels
                      && forall i, j :: 0 <= i < k <= j < |s| ==> BetterPrice(d, s[i].price, s[j].price))
  {
    ReachLevels(d, s, 0, -100);
  }

  lemma ReachLevels(d: Direction, s: seq<Order>, n: int, p: int)
    requires Sorted(d, s) && 0 <= n <= 5
    ensures var k, levels := Reach(s, n, p), 5 - n + if s != [] && s[0].price == p then 1 else 0;
      && |Prices(s[..k])| <= levels
      && (k < |s| ==> |Prices(s[..k])| == levels
                      && forall i, j :: 0 <= i < k <= j < |s| ==> BetterPrice(d, s[i].price, s[j].price))
  {
    ReachCounts(d, s, n, p);
    var k := Reach(s, n, p);
    forall i, j | 0 <= i < k <= j < |s| ensures BetterPrice(d, s[i].price, s[j].price) {
      ReachStopsBetweenLevels(s, n, p);
      assert Before(d, s[k - 1], s[k]);
      assert (i < k - 1 ==> Before(d, s[i], s[k - 1])) && (k < j ==> Before(d, s[k], s[j]));
    }
  }

  /** The reach ends where the price changes. */
  lemma {:induction false} ReachStopsBetweenLevels(s: seq<Order>, n: int, p: int)
    ensures var k := Reach(s, n, p); 0 < k < |s| ==> s[k - 1].price != s[k].price
    ensures s != [] && s[0].price == p ==> Reach(s, n, p) > 0
  {
    if Reach(s, n, p) > 0 {
      ReachStopsBetweenLevels(s[1..], if s[0].price == p then n else n + 1, s[0].price);
    }
  }

  lemma {:induction false} ReachCounts(d: Direction, s: seq<Order>, n: int, p: int)
    requires Sorted(d, s) && 0 <= n <= 5
    ensures var k, levels := Reach(s, n, p), 5 - n + if s != [] && s[0].price == p then 1 else 0;
      |Prices(s[..k])| <= levels && (k < |s| ==> |Prices(s[..k])| == levels)
  {
    hide Prices;
    var k := Reach(s, n, p);
    if k == 0 {
      NoPrices(s[..k]);
    } else {
      var t, n' := s[1..], if s[0].price == p then n else n + 1;
      TailSorted(d, s);
      ReachCounts(d, t, n', s[0].price);
      hide Sorted;
      assert t[..k - 1] == s[1..k];
      PricesCons(d, s, k);
      ReachStopsBetweenLevels(t, n', s[0].price);
      if k == 1 {
        NoPrices(s[1..k]);
      }
    }
  }

  lemma NoPrices(s: seq<Order>)
    requires s == []
    ensures Prices(s) == {}
  {
  }

  lemma TailSorted(d: Direction, s: seq<Order>)
    requires Sorted(d, s) && s != []
    ensures Sorted(d, s[1..])
  {
  }

  lemma PricesCons(d: Direction, s: seq<Order>, k: nat)
    requires Sorted(d, s) && 0 < k <= |s|
    ensures Prices(s[..k]) == {s[0].price} + Prices(s[1..k])
    ensures s[0].price in Prices(s[1..k]) <==> k > 1 && s[1].price == s[0].price
    ensures |Prices(s[..k])| == |Prices(s[1..k])| + if k > 1 && s[1].price == s[0].price then 0 else 1
  {
    var t := s[1..k];
    forall x | x in Prices(s[..k]) ensures x in {s[0].price} + Prices(t) {
      var i :| 0 <= i < k && s[..k][i].price == x;
      assert i > 0 ==> t[i - 1].price == x;
    }
    forall x | x in {s[0].price} + Prices(t) ensures x in Prices(s[..k]) {
      if x == s[0].price {
        assert s[..k][0].price == x;
      } else {
        var i :| 0 <= i < |t| && t[i].price == x;
        assert s[..k][i + 1].price == x;
      }
    }
    if s[0].price in Prices(t) {
      var i :| 0 <= i < |t| && t[i].price == s[0].price;
      assert Before(d, s[0], s[1]) && (i > 0 ==> Before(d, s[1], s[i + 1]));
    } else if k > 1 {
      assert t[0].price == s[1].price;
    }
    assert Prices(s[..k]) == {s[0].price} + Prices(t);
    if s[0].price in Prices(t) {
      assert Prices(s[..k]) == Prices(t);
    }
  }
}
