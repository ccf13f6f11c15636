/** Runs on which the engine falls short of the exchange's rules, step by step: prices outside
    the day's limits, a profit that is off by a tick, and a five-level order that trades at six
    prices. All of them start with two order logs that share a time stamp. */
module Shortfalls {
  import opened Orders
  import opened PriorityBook
  import opened Matching
  import opened ContractSpec
  import opened Ledger
  import opened Fills
  import opened PriceBand

  const PREV_CLOSE := 1000

  /** A buy with offset 0, which rests at 10.00, and an immediate sale with its offset. */
  const FIRST_BUY := Order(5, 1, 0, Buy, PRICE_LIMIT)

  function FirstSale(offset: int): Order {
    Order(5, 1, offset, Sale, IMMEDIATE_DEAL_NO_LEFT)
  }

  function FirstFill(offset: int): Fill {
    Fill(Party(offset, 5, IMMEDIATE_DEAL_NO_LEFT), Party(PREV_CLOSE, 5, PRICE_LIMIT), offset, 1)
  }

  /** No order is left, and the last price is the sale's offset. */
  function Emptied(offset: int, twaps: seq<Order>, target: int): State {
    State(Book([], [], Account(0, offset, [FirstFill(offset)])), twaps, 0, target)
  }

  // ------------------------------------------------------------- single steps

  /** The order log leads from st to st' with these fills and without a tie. */
  ghost predicate Leads(l: Limits, st: State, o: Order, st': State, fills: seq<Fill>) {
    InsertOrderLog(l, st, o) == st' && LogFills(l, st, o) == fills && FreshLog(l, st, o)
  }

  lemma Chain(s: Session, l: Limits, st: State, o: Order, st': State, fills: seq<Fill>, ops: seq<Op>)
    requires s.num > 0 && Leads(l, st, o, st', fills)
    ensures Run(s, l, st, [LogOp(o)] + ops) == Run(s, l, st', ops)
    ensures RunFills(s, l, st, [LogOp(o)] + ops) == fills + RunFills(s, l, st', ops)
    ensures FreshRun(s, l, st, [LogOp(o)] + ops) <==> FreshRun(s, l, st', ops)
  {
    hide InsertOrderLog, LogFills, FreshLog;
    assert ([LogOp(o)] + ops)[1..] == ops;
  }

  /** A limit order that finds no opposite side and is behind all orders of its own. */
  lemma Rests(l: Limits, st: State, o: Order, p: int)
    requires NothingDue(st, o.timestamp) && o.kind == PRICE_LIMIT && o.volume > 0
    requires Opp(st.book, o.direction) == [] && Admit(l, st.book, o) == Admitted(p)
    requires forall x :: x in Own(st.book, o.direction) ==> Before(o.direction, x, o.(price := p))
    ensures var own := Own(st.book, o.direction) + [o.(price := p)];
      Leads(l, st, o, st.(book := MakeBook(o.direction, own, [], st.book.acct)), [])
  {
    var b := AddOrder(st.book, o.(price := p));
    AddLast(o.direction, Own(st.book, o.direction), o.(price := p));
    NotCrossedStays(b);
    MatchFillsDone(b);
  }

  lemma {:induction false} AddLast(d: Direction, s: seq<Order>, o: Order)
    requires forall x :: x in s ==> Before(d, x, o)
    ensures Add(d, s, o) == s + [o]
  {
    if s != [] {
      assert s[0] in s;
      AddLast(d, s[1..], o);
      assert s + [o] == [s[0]] + (s[1..] + [o]);
    }
  }

  lemma BuyRests(l: Limits, twaps: seq<Order>, target: int)
    requires l == InitialLimits(PREV_CLOSE) && (twaps == [] || twaps[0].timestamp >= 5)
    ensures var st := Initial(PREV_CLOSE, 0).(twaps := twaps, target := target);
      Leads(l, st, FIRST_BUY, st.(book := Book([], [FIRST_BUY.(price := PREV_CLOSE)], st.book.acct)), [])
  {
    var st := Initial(PREV_CLOSE, 0).(twaps := twaps, target := target);
    assert PriceRange(l, PREV_CLOSE, Buy) == (900, 1020);
    Rests(l, st, FIRST_BUY, PREV_CLOSE);
  }

  /** A sale that takes the one buy there is. */
  lemma SaleTakes(l: Limits, st: State, o: Order, r: Order)
    requires NothingDue(st, o.timestamp) && o.direction == Sale && o.kind == IMMEDIATE_DEAL_NO_LEFT
    requires st.book.buys == [r] && o.volume == r.volume == 1
    ensures var b := Book(st.book.sells, [], Trade(st.book.acct, o, r, 1));
      Leads(l, st, o, st.(book := b), [FillOf(o, r, 1)])
  {
    hide Trade;
    var a := st.book.acct;
    assert [r][..1] == [r] && [r][1..] == [];
    assert Sweep(false, o, [r], a) == Sweep(false, Reduce(o, 1), [], Trade(a, o, r, 1));
    assert TakenFills(o, [r], 1) == [FillOf(o, r, 1)] + TakenFills(Reduce(o, 1), [], 0);
  }

  /** With equal time stamps the sale trades at its own offset. */
  lemma Crash(s: Session, l: Limits, offset: int, twaps: seq<Order>, target: int, ops: seq<Op>)
    requires s.num > 0 && l == InitialLimits(PREV_CLOSE) && offset != PREV_CLOSE
    requires twaps == [] || twaps[0].timestamp >= 5
    ensures var st := Initial(PREV_CLOSE, 0).(twaps := twaps, target := target);
      var all := [LogOp(FIRST_BUY)] + ([LogOp(FirstSale(offset))] + ops);
      && Run(s, l, st, all) == Run(s, l, Emptied(offset, twaps, target), ops)
      && RunFills(s, l, st, all) == [FirstFill(offset)] + RunFills(s, l, Emptied(offset, twaps, target), ops)
      && (FreshRun(s, l, st, all) <==> FreshRun(s, l, Emptied(offset, twaps, target), ops))
  {
    hide Leads, InitialLimits, Run, RunFills, FreshRun;
    var st := Initial(PREV_CLOSE, 0).(twaps := twaps, target := target);
    var r, o := FIRST_BUY.(price := PREV_CLOSE), FirstSale(offset);
    var st' := st.(book := Book([], [r], st.book.acct));
    BuyRests(l, twaps, target);
    SaleTakes(l, st', o, r);
    assert Trade(st.book.acct, o, r, 1) == Account(0, offset, [FirstFill(offset)]);
    Chain(s, l, st', o, Emptied(offset, twaps, target), [FirstFill(offset)], ops);
    Chain(s, l, st, FIRST_BUY, st', [], [LogOp(o)] + ops);
  }

  // ------------------------------------------------------------- the price band

  /** The lower limit is 9.00, and the last price is the offset of the sale: 0. */
  lemma SharedTimestampLeavesBand(s: Session)
    requires s.num > 0
    ensures var l := InitialLimits(PREV_CLOSE);
      var ops := [LogOp(FIRST_BUY), LogOp(FirstSale(0))];
      && ValidOps(ops) && l.down == 900
      && Run(s, l, Initial(PREV_CLOSE, 0), ops).book.acct.lastPrice == 0
  {
    hide InitialLimits, InsertOrderLog;
    var st := Initial(PREV_CLOSE, 0);
    assert InitialLimits(PREV_CLOSE).down == 900 by { LimitsOfTen(); }
    Crash(s, InitialLimits(PREV_CLOSE), 0, [], 0, []);
    assert [LogOp(FIRST_BUY)] + ([LogOp(FirstSale(0))] + []) == [LogOp(FIRST_BUY), LogOp(FirstSale(0))];
    assert st == st.(twaps := [], target := 0);
  }

  lemma LimitsOfTen()
    ensures InitialLimits(PREV_CLOSE) == Limits(1100, 900)
  {
  }

  // --------------------------------------------------- a slice at a negative price

  /** A slice of one unit that is due when the book is empty rests at the last price. */
  lemma SliceRests(st: State, t: int)
    requires st.book.sells == st.book.buys == [] && st.head < |st.twaps|
    requires st.twaps[st.head].timestamp < t && st.twaps[st.head].volume == 1
    requires st.head + 1 < |st.twaps| ==> st.twaps[st.head + 1].timestamp >= t
    ensures var o := st.twaps[st.head].(price := st.book.acct.lastPrice);
      var b := MakeBook(o.direction, [o], [], st.book.acct);
      && Inject(st, t) == State(b, st.twaps[st.head := o], st.head + 1, st.target)
      && InjectFills(st, t) == [] && FreshInject(st, t)
  {
    var o := st.twaps[st.head].(price := st.book.acct.lastPrice);
    var b := MakeBook(o.direction, [o], [], st.book.acct);
    assert AddOrder(st.book, o) == b;
    NotCrossedStays(b);
    MatchFillsDone(b);
    hide MatchFills;
    assert InjectOne(st) == State(b, st.twaps[st.head := o], st.head + 1, st.target);
    assert InjectOneFills(st) == [];
    assert NothingDue(InjectOne(st), t);
    NothingInjected(InjectOne(st), t);
  }

  /** An order log that comes after the slice does what it does on the book with the slice. */
  lemma SliceFirst(l: Limits, st: State, o: Order, st': State, fills: seq<Fill>)
    requires Inject(st, o.timestamp).head > st.head ==>
      InjectFills(st, o.timestamp) == [] && FreshInject(st, o.timestamp)
    requires Inject(st, o.timestamp).head > st.head && NothingDue(Inject(st, o.timestamp), o.timestamp)
    requires Leads(l, Inject(st, o.timestamp), o, st', fills)
    ensures Leads(l, st, o, st', fills)
  {
    hide Place, PlaceFills, FreshPlace;
    NothingInjected(Inject(st, o.timestamp), o.timestamp);
  }

  /** The slices of a target of three units after time 6, one unit per second. */
  function ThreeSlices(): seq<Order> {
    [Order(6, 1, 0, Buy, MY_CONTRACT), Order(1006, 1, 0, Buy, MY_CONTRACT), Order(2006, 1, 0, Buy, MY_CONTRACT)]
  }

  lemma AlphaOfThree()
    ensures InsertAlpha(Session(3, 1), Initial(PREV_CLOSE, 0), Alpha(6, 3))
         == Initial(PREV_CLOSE, 0).(twaps := ThreeSlices(), target := 3)
  {
    var s := Slices(Session(3, 1), Alpha(6, 3), 3, 3);
    assert s == [SliceOf(Session(3, 1), Alpha(6, 3), 3, 0), SliceOf(Session(3, 1), Alpha(6, 3), 3, 1),
                 SliceOf(Session(3, 1), Alpha(6, 3), 3, 2)];
  }

  const SECOND_SALE := Order(7, 1, 0, Sale, IMMEDIATE_DEAL_NO_LEFT)

  function OwnFill(): Fill {
    Fill(Party(0, 7, IMMEDIATE_DEAL_NO_LEFT), Party(-100, 6, MY_CONTRACT), -100, 1)
  }

  /** Our first slice is bought at -1.00 ... */
  lemma OwnSliceFills(l: Limits)
    ensures var st := Emptied(-100, ThreeSlices(), 3);
      exists st' :: Leads(l, st, SECOND_SALE, st', [OwnFill()])
  {
    hide Leads, Trade, Push, Inject, InjectFills, FreshInject;
    var st, o := Emptied(-100, ThreeSlices(), 3), SECOND_SALE;
    var r := Order(6, 1, -100, Buy, MY_CONTRACT);
    SliceRests(st, 7);
    var st' := Inject(st, 7);
    SaleTakes(l, st', o, r);
    var end := st'.(book := Book([], [], Trade(st'.book.acct, o, r, 1)));
    assert FillOf(o, r, 1) == OwnFill();
    SliceFirst(l, st, o, end, [OwnFill()]);
  }

  lemma OwnSliceRun(l: Limits)
    requires l == InitialLimits(PREV_CLOSE)
    ensures var s, st := Session(3, 1), Initial(PREV_CLOSE, 0);
      var logs := [LogOp(FIRST_BUY)] + ([LogOp(FirstSale(-100))] + ([LogOp(SECOND_SALE)] + []));
      && FreshRun(s, l, st, [AlphaOp(Alpha(6, 3))] + logs)
      && RunFills(s, l, st, [AlphaOp(Alpha(6, 3))] + logs) == [FirstFill(-100)] + ([OwnFill()] + [])
  {
    hide InitialLimits, Leads, Run, RunFills, FreshRun, Step, StepFills, FreshStep, InsertAlpha;
    var s, st, st1 := Session(3, 1), Initial(PREV_CLOSE, 0), Emptied(-100, ThreeSlices(), 3);
    AlphaOfThree();
    AlphaFirst(s, l, st, Alpha(6, 3), [LogOp(FIRST_BUY)] + ([LogOp(FirstSale(-100))] + ([LogOp(SECOND_SALE)] + [])));
    Crash(s, l, -100, ThreeSlices(), 3, [LogOp(SECOND_SALE)] + []);
    OwnSliceFills(l);
    var st2 :| Leads(l, st1, SECOND_SALE, st2, [OwnFill()]);
    Chain(s, l, st1, SECOND_SALE, st2, [OwnFill()], []);
    NothingMore(s, l, st2);
  }

  /** ... and the income is booked one tick too low: the fills have gained nothing, but the
      reported profit, which is the gain plus the slips, is -0.01. No two orders tie, so the
      engine makes exactly these fills. */
  lemma ProfitOffByOneTick()
    ensures var s, l, st := Session(3, 1), InitialLimits(PREV_CLOSE), Initial(PREV_CLOSE, 0);
      var ops := [AlphaOp(Alpha(6, 3)), LogOp(FIRST_BUY), LogOp(FirstSale(-100)), LogOp(SECOND_SALE)];
      var fills := RunFills(s, l, st, ops);
      && ValidOps(ops) && FreshRun(s, l, st, ops)
      && fills == [FirstFill(-100), OwnFill()] && Run(s, l, st, ops).book.acct.tape == Tape(fills)
      && Gain(Tape(fills), -100) == 0 && Slips(fills) == -1
  {
    hide InitialLimits, Run, RunFills, FreshRun, Tape, Gain, Slips;
    var s, l, st := Session(3, 1), InitialLimits(PREV_CLOSE), Initial(PREV_CLOSE, 0);
    var ops := [AlphaOp(Alpha(6, 3)), LogOp(FIRST_BUY), LogOp(FirstSale(-100)), LogOp(SECOND_SALE)];
    assert ops == [AlphaOp(Alpha(6, 3))]
      + ([LogOp(FIRST_BUY)] + ([LogOp(FirstSale(-100))] + ([LogOp(SECOND_SALE)] + [])));
    OwnSliceRun(l);
    TapeOfDay(s, l, PREV_CLOSE, 0, ops);
    TwoFills(FirstFill(-100), OwnFill());
    NoGain();
  }

  lemma AlphaFirst(s: Session, l: Limits, st: State, alpha: Alpha, ops: seq<Op>)
    requires s.num > 0
    ensures var all, st' := [AlphaOp(alpha)] + ops, InsertAlpha(s, st, alpha);
      && Run(s, l, st, all) == Run(s, l, st', ops) && RunFills(s, l, st, all) == RunFills(s, l, st', ops)
      && (FreshRun(s, l, st, all) <==> FreshRun(s, l, st', ops))
  {
    hide InsertAlpha;
    assert ([AlphaOp(alpha)] + ops)[1..] == ops;
  }

  lemma NothingMore(s: Session, l: Limits, st: State)
    requires s.num > 0
    ensures RunFills(s, l, st, []) == [] && FreshRun(s, l, st, [])
  {
  }

  lemma TwoFills(f: Fill, g: Fill)
    requires !SamePrint(f, g)
    ensures Tape([f, g]) == [f, g] && Slips([f, g]) == Slip(f) + Slip(g)
  {
    assert [f, g][..1] == [f] && [f][..0] == [];
    assert Tape([f]) == [f] && Slips([f]) == Slip(f);
  }

  lemma NoGain()
    ensures Gain([FirstFill(-100), OwnFill()], -100) == 0
  {
    var f, g := FirstFill(-100), OwnFill();
    assert [f, g][..1] == [f] && [f][..0] == [];
    assert OwnSign(f) == 0 && Gain([f], -100) == Gain([], -100);
  }

  // ------------------------------------------------------------------ six levels

  /** One of five sales that come to rest at 9.00, 9.01 and so on above our own one at -1.00. */
  function Ask(i: nat): Order {
    Order(7 + i, 1, 1000 + i, Sale, PRICE_LIMIT)
  }

  const LAST_BUY := Order(12, 6, 0, Buy, BEST_FIVE_PRICE_NO_LEFT)

  /** The sales side with k of them. */
  function Ladder(k: nat): (s: seq<Order>)
    ensures |s| == k + 1 && s[0].price == -100
    ensures forall x :: x in s ==> x.price < 900 + k && x.timestamp < 7 + k && x.volume == 1 && x.direction == Sale
    ensures forall i :: 1 <= i < |s| ==> s[i].price == 899 + i
  {
    if k == 0 then [Order(6, 1, -100, Sale, MY_CONTRACT)] else Ladder(k - 1) + [Ask(k - 1).(price := 899 + k)]
  }

  function OnLadder(k: nat): State {
    State(Book(Ladder(k), [], Account(0, -100, [FirstFill(-100)])), Ladder(0), 1, -1)
  }

  lemma NextAsk(l: Limits, k: nat)
    requires l == InitialLimits(PREV_CLOSE) && k < 200
    ensures Leads(l, OnLadder(k), Ask(k), OnLadder(k + 1), [])
  {
    hide Leads;
    LimitsOfTen();
    assert PriceRange(l, -100, Sale) == (900, 1100);
    Rests(l, OnLadder(k), Ask(k), 900 + k);
  }

  lemma FirstAsk(l: Limits)
    requires l == InitialLimits(PREV_CLOSE)
    ensures Leads(l, Emptied(-100, [Order(6, 1, 0, Sale, MY_CONTRACT)], -1), Ask(0), OnLadder(1), [])
  {
    hide Leads, Inject, InjectFills, FreshInject;
    var st := Emptied(-100, [Order(6, 1, 0, Sale, MY_CONTRACT)], -1);
    SliceRests(st, 7);
    assert Inject(st, 7) == OnLadder(0);
    NextAsk(l, 0);
    SliceFirst(l, st, Ask(0), OnLadder(1), []);
  }

  /** Up to five entries are always in reach of an order that has seen no level. */
  lemma {:induction false} ReachShort(s: seq<Order>, n: nat, p: int)
    requires |s| + n <= 5
    ensures Reach(s, n, p) == |s|
  {
    if s != [] {
      ReachShort(s[1..], if s[0].price == p then n else n + 1, s[0].price);
    }
  }

  lemma FirstUnit(inc: Order, s: seq<Order>)
    requires s != [] && inc.volume == |s| && s[0].volume == 1
    ensures TakenFills(inc, s, |s|) == [FillWith(inc, s[0], 1)] + TakenFills(Reduce(inc, 1), s[1..], |s| - 1)
    ensures forall r :: FillWith(Reduce(inc, 1), r, 1) == FillWith(inc, r, 1)
  {
  }

  /** An order takes a list of single units one by one. */
  lemma {:induction false} TakenUnits(inc: Order, s: seq<Order>)
    requires inc.volume == |s| && forall x :: x in s ==> x.volume == 1
    ensures var fills := TakenFills(inc, s, |s|);
      |fills| == |s| && forall i :: 0 <= i < |s| ==> fills[i] == FillWith(inc, s[i], 1)
    decreases |s|
  {
    hide TakenFills;
    if s == [] {
      TakenFillsDone(inc, s, 0);
    } else {
      hide FillWith;
      assert s[0] in s && forall x :: x in s[1..] ==> x in s;
      FirstUnit(inc, s);
      TakenUnits(Reduce(inc, 1), s[1..]);
    }
  }

  /** The level counter starts at the price of our own sale, so that does not count. */
  lemma LadderInReach()
    ensures Reach(Ladder(5), 0, -100) == 6
  {
    hide Ladder;
    ReachShort(Ladder(5)[1..], 0, -100);
  }

  lemma LastBuy(l: Limits)
    ensures exists st' :: Leads(l, OnLadder(5), LAST_BUY, st', TakenFills(LAST_BUY, Ladder(5), 6))
  {
    hide TakenFills, Reach, Ladder, TakeOnly;
    var st := OnLadder(5);
    NothingInjected(st, 12);
    LadderInReach();
    assert PlaceFills(l, st.book, LAST_BUY) == TakenFills(LAST_BUY, Ladder(5), 6);
    assert [] + TakenFills(LAST_BUY, Ladder(5), 6) == TakenFills(LAST_BUY, Ladder(5), 6);
    assert Leads(l, st, LAST_BUY, st.(book := Place(l, st.book, LAST_BUY)), TakenFills(LAST_BUY, Ladder(5), 6));
  }

  lemma LastBuyFills()
    ensures var fills := TakenFills(LAST_BUY, Ladder(5), 6);
      |fills| == 6 && forall i :: 0 <= i < 6 ==>
        fills[i].buy == Party(0, 12, BEST_FIVE_PRICE_NO_LEFT) && fills[i].price == if i == 0 then -100 else 899 + i
  {
    hide TakenFills, Ladder;
    TakenUnits(LAST_BUY, Ladder(5));
    forall i | 0 <= i < 6 ensures FillWith(LAST_BUY, Ladder(5)[i], 1).price == Ladder(5)[i].price {
      assert Ladder(5)[i] in Ladder(5);
    }
  }

  /** The five asks from number k on, then the last buy. */
  function Climb(k: nat): seq<Op>
    decreases 5 - k
  {
    if k >= 5 then [LogOp(LAST_BUY)] else [LogOp(Ask(k))] + Climb(k + 1)
  }

  lemma {:induction false} ClimbFills(l: Limits, k: nat)
    requires l == InitialLimits(PREV_CLOSE) && k <= 5
    ensures FreshRun(Session(1, 1), l, OnLadder(k), Climb(k))
    ensures RunFills(Session(1, 1), l, OnLadder(k), Climb(k)) == TakenFills(LAST_BUY, Ladder(5), 6)
    decreases 5 - k
  {
    hide InitialLimits, Leads, Run, RunFills, FreshRun, OnLadder, TakenFills;
    var s, taken := Session(1, 1), TakenFills(LAST_BUY, Ladder(5), 6);
    if k == 5 {
      LastBuy(l);
      var st' :| Leads(l, OnLadder(5), LAST_BUY, st', taken);
      Chain(s, l, OnLadder(5), LAST_BUY, st', taken, []);
      NothingMore(s, l, st');
      assert [LogOp(LAST_BUY)] + [] == Climb(5);
    } else {
      NextAsk(l, k);
      ClimbFills(l, k + 1);
      Chain(s, l, OnLadder(k), Ask(k), OnLadder(k + 1), [], Climb(k + 1));
    }
  }

  lemma AlphaOfOneSale()
    ensures InsertAlpha(Session(1, 1), Initial(PREV_CLOSE, 0), Alpha(6, -1))
         == Initial(PREV_CLOSE, 0).(twaps := [Order(6, 1, 0, Sale, MY_CONTRACT)], target := -1)
  {
    assert Slices(Session(1, 1), Alpha(6, -1), -1, 1) == [SliceOf(Session(1, 1), Alpha(6, -1), -1, 0)];
  }

  lemma ClimbRun(l: Limits)
    requires l == InitialLimits(PREV_CLOSE)
    ensures var s, st := Session(1, 1), Initial(PREV_CLOSE, 0);
      var ops := [AlphaOp(Alpha(6, -1))] + ([LogOp(FIRST_BUY)] + ([LogOp(FirstSale(-100))] + Climb(0)));
      && FreshRun(s, l, st, ops)
      && RunFills(s, l, st, ops) == [FirstFill(-100)] + TakenFills(LAST_BUY, Ladder(5), 6)
  {
    hide InitialLimits, Leads, Run, RunFills, FreshRun, OnLadder, TakenFills, InsertAlpha, Climb;
    var s, twaps := Session(1, 1), [Order(6, 1, 0, Sale, MY_CONTRACT)];
    AlphaOfOneSale();
    AlphaFirst(s, l, Initial(PREV_CLOSE, 0), Alpha(6, -1), [LogOp(FIRST_BUY)] + ([LogOp(FirstSale(-100))] + Climb(0)));
    Crash(s, l, -100, twaps, -1, Climb(0));
    FirstAsk(l);
    assert Climb(0) == [LogOp(Ask(0))] + Climb(1) by { ClimbNext(0); }
    Chain(s, l, Emptied(-100, twaps, -1), Ask(0), OnLadder(1), [], Climb(1));
    ClimbFills(l, 1);
    assert [] + TakenFills(LAST_BUY, Ladder(5), 6) == TakenFills(LAST_BUY, Ladder(5), 6);
  }

  lemma ClimbNext(k: nat)
    requires k < 5
    ensures Climb(k) == [LogOp(Ask(k))] + Climb(k + 1)
  {
  }

  lemma ClimbIs()
    ensures Climb(0) == [LogOp(Ask(0)), LogOp(Ask(1)), LogOp(Ask(2)), LogOp(Ask(3)), LogOp(Ask(4)), LogOp(LAST_BUY)]
  {
    assert Climb(3) == [LogOp(Ask(3)), LogOp(Ask(4)), LogOp(LAST_BUY)];
  }

  /** Our own sale is left at -1.00, five sales come to rest above it, and a buy of the
      five-level type trades at six different prices. */
  lemma FiveLevelsAreSix()
    ensures var s, l, st := Session(1, 1), InitialLimits(PREV_CLOSE), Initial(PREV_CLOSE, 0);
      var ops := [AlphaOp(Alpha(6, -1)), LogOp(FIRST_BUY), LogOp(FirstSale(-100)),
                  LogOp(Ask(0)), LogOp(Ask(1)), LogOp(Ask(2)), LogOp(Ask(3)), LogOp(Ask(4)), LogOp(LAST_BUY)];
      var fills := RunFills(s, l, st, ops);
      && ValidOps(ops) && FreshRun(s, l, st, ops) && |fills| == 7
      && forall i :: 1 <= i < 7 ==>
           fills[i].buy == Party(0, 12, BEST_FIVE_PRICE_NO_LEFT) && fills[i].price == if i == 1 then -100 else 898 + i
  {
    hide InitialLimits, RunFills, FreshRun, TakenFills, Climb, Ladder;
    var ops := [AlphaOp(Alpha(6, -1)), LogOp(FIRST_BUY), LogOp(FirstSale(-100)),
                LogOp(Ask(0)), LogOp(Ask(1)), LogOp(Ask(2)), LogOp(Ask(3)), LogOp(Ask(4)), LogOp(LAST_BUY)];
    ClimbIs();
    assert ops == [AlphaOp(Alpha(6, -1))] + ([LogOp(FIRST_BUY)] + ([LogOp(FirstSale(-100))] + Climb(0)));
    ClimbRun(InitialLimits(PREV_CLOSE));
    LastBuyFills();
  }
}
