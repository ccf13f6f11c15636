/** The day's price band: which limit orders are accepted, and the exact condition on an order
    log and on a whole run under which no price leaves the band. */
module PriceBand {
  import opened Orders
  import opened PriorityBook
  import opened Matching
  import opened ContractSpec
  import opened Ledger
  import opened Accounting
  import opened MakerPrice

  predicate InBand(l: Limits, p: int) {
    l.down <= p <= l.up
  }

  /** Every entry is priced within the band and is not younger than c. */
  ghost predicate SideOk(l: Limits, c: int, s: seq<Order>) {
    forall o :: o in s ==> InBand(l, o.price) && o.timestamp <= c
  }

  ghost predicate TapeInBand(l: Limits, tape: seq<Fill>) {
    forall f :: f in tape ==> InBand(l, f.price)
  }

  ghost predicate AccountOk(l: Limits, a: Account) {
    InBand(l, a.lastPrice) && TapeInBand(l, a.tape)
  }

  ghost predicate BookOk(l: Limits, c: int, b: Book) {
    SideOk(l, c, b.sells) && SideOk(l, c, b.buys) && AccountOk(l, b.acct)
  }

  // --------------------------------------------------------- the band is kept

  lemma AddOk(l: Limits, c: int, d: Direction, s: seq<Order>, o: Order)
    requires SideOk(l, c, s) && InBand(l, o.price) && o.timestamp <= c
    ensures SideOk(l, c, Add(d, s, o))
  {
    forall x | x in Add(d, s, o) ensures InBand(l, x.price) && x.timestamp <= c {
      AddKeys(d, s, o, x);
    }
  }

  lemma TakeOk(l: Limits, c: int, s: seq<Order>, v: int)
    requires SideOk(l, c, s) && s != []
    ensures SideOk(l, c, Take(s, v)) && InBand(l, s[0].price) && s[0].timestamp <= c
  {
    forall x | x in Take(s, v) ensures InBand(l, x.price) && x.timestamp <= c {
      assert s[0] in s && (x in s || x == Reduce(s[0], v));
    }
    assert s[0] in s;
  }

  lemma PushBandIff(l: Limits, tape: seq<Fill>, f: Fill)
    ensures TapeInBand(l, Push(tape, f)) <==> TapeInBand(l, tape) && InBand(l, f.price)
  {
    var t := Push(tape, f);
    assert t[|t| - 1] in t && t[|t| - 1].price == f.price;
    if TapeInBand(l, t) {
      forall g | g in tape ensures InBand(l, g.price) {
        PushShows(tape, f, g);
      }
    }
  }

  lemma {:induction false} MatchOk(l: Limits, c: int, b: Book)
    requires BookOk(l, c, b)
    ensures BookOk(l, c, Match(b))
    decreases |b.sells| + |b.buys|
  {
    if Crossed(b) {
      hide SideOk, TapeInBand;
      var v := Min(b.sells[0].volume, b.buys[0].volume);
      TakeOk(l, c, b.sells, v);
      TakeOk(l, c, b.buys, v);
      PushBandIff(l, b.acct.tape, FillOf(b.sells[0], b.buys[0], v));
      MatchOk(l, c, TradeTops(b, v));
    }
  }

  /** Every price an order trades at, its own or a resting one, is in the band. */
  ghost predicate TradesInBand(l: Limits, inc: Order, s: seq<Order>) {
    forall i :: Reaches(false, inc, s, i) ==> InBand(l, PriceWith(inc, s[i]))
  }

  lemma TradesInBandStep(l: Limits, inc: Order, s: seq<Order>)
    requires Sorted(Opposite(inc.direction), s) && Fit(false, inc, s)
    ensures var v := Min(inc.volume, s[0].volume);
      TradesInBand(l, inc, s) <==>
        InBand(l, PriceWith(inc, s[0])) && TradesInBand(l, Reduce(inc, v), Take(s, v))
  {
    hide Total, Crosses, Take, Sorted, InBand;
    var v := Min(inc.volume, s[0].volume);
    var inc', s' := Reduce(inc, v), Take(s, v);
    ReachesStep(false, inc, s, 0);
    if TradesInBand(l, inc, s) {
      forall i | 0 <= i < |s'| && Reaches(false, inc', s', i) ensures InBand(l, PriceWith(inc', s'[i])) {
        ReachesStep(false, inc, s, i);
        assert PriceWith(inc', s'[i]) == PriceWith(inc, s[i + 1]);
      }
    }
    if InBand(l, PriceWith(inc, s[0])) && TradesInBand(l, inc', s') {
      forall i | 0 <= i < |s| && Reaches(false, inc, s, i) ensures InBand(l, PriceWith(inc, s[i])) {
        if i > 0 {
          ReachesStep(false, inc, s, i - 1);
          assert PriceWith(inc', s'[i - 1]) == PriceWith(inc, s[i]);
        }
      }
    }
  }

  /** A sweep keeps the tape in the band exactly if all its trades are in the band. */
  lemma {:induction false} SweepBandIff(l: Limits, c: int, inc: Order, rest: seq<Order>, a: Account)
    requires Sorted(Opposite(inc.direction), rest) && SideOk(l, c, rest)
    ensures var r := Sweep(false, inc, rest, a);
      && SideOk(l, c, r.rest)
      && (TapeInBand(l, r.acct.tape) <==> TapeInBand(l, a.tape) && TradesInBand(l, inc, rest))
      && (InBand(l, a.lastPrice) && TradesInBand(l, inc, rest) ==> InBand(l, r.acct.lastPrice))
    decreases |rest| + if inc.volume > 0 then 1 else 0
  {
    if Fit(false, inc, rest) {
      hide TapeInBand, TradesInBand, SideOk, Sorted;
      var d, v := Opposite(inc.direction), Min(inc.volume, rest[0].volume);
      PositiveHead(d, rest, []);
      TakeSorted(d, rest, v);
      TakeOk(l, c, rest, v);
      TradesInBandStep(l, inc, rest);
      PushBandIff(l, a.tape, FillWith(inc, rest[0], v));
      SweepBandIff(l, c, Reduce(inc, v), Take(rest, v), TradeWith(a, inc, rest[0], v));
    } else {
      NothingReached(false, inc, rest);
    }
  }

  /** The base price of either side is in the band. */
  lemma BaseOk(l: Limits, c: int, b: Book, d: Direction)
    requires BookOk(l, c, b)
    ensures InBand(l, BasePrice(b, d))
  {
    assert Opp(b, d) != [] ==> Opp(b, d)[0] in Opp(b, d);
    assert Own(b, d) != [] ==> Own(b, d)[0] in Own(b, d);
  }

  lemma Round2Monotonic(x: int, y: int)
    requires x <= y
    ensures Round2(x) <= Round2(y)
  {
  }

  /** A limit order that is accepted is priced within the band, rounding included. */
  lemma AcceptedInBand(l: Limits, base: int, o: Order)
    requires 0 <= l.down <= l.up && Accepted(l, base, o)
    ensures InBand(l, o.price)
  {
    if o.direction == Buy {
      Round2Monotonic(Min(Max(base * 102, (base + 10) * 100), l.up * 100), l.up * 100);
    } else {
      Round2Monotonic(l.down * 100, Max(Min(base * 98, (base - 10) * 100), l.down * 100));
    }
  }

  /** The day's limits are the prices nearest to 90% and 110% of the previous close. */
  lemma DayLimits(prevClose: nat)
    ensures var l := InitialLimits(prevClose);
      && -5 <= 10 * l.up - 11 * prevClose <= 5 && -5 <= 10 * l.down - 9 * prevClose <= 5
      && 0 <= l.down <= prevClose <= l.up
  {
  }

  /** A limit order is accepted exactly if it is within the day's limits and does not go past
      the base price by more than 2% or 0.10, whichever is more, give or take half a tick. The
      base price may be negative: since the rounding cuts off toward zero, a purchase at 0 is
      then given one and a half ticks. */
  lemma AcceptedIff(l: Limits, base: int, o: Order)
    requires 0 <= l.down <= l.up
    ensures Accepted(l, base, o) <==>
      && l.down <= o.price <= l.up
      && if o.direction == Buy
         then 100 * (o.price - base) <= Max(2 * base, 1000) + if o.price == 0 then 150 else 50
         else 100 * (base - o.price) < Max(2 * base, 1000) + 50
  {
    if o.direction == Buy {
      var c := Max(base * 102, (base + 10) * 100);
      assert c == 100 * base + Max(2 * base, 1000);
      assert Round2(Min(c, l.up * 100)) == Min(Round2(c), l.up);
    } else {
      var c := Min(base * 98, (base - 10) * 100);
      assert c == 100 * base - Max(2 * base, 1000);
      assert l.down * 100 >= c ==> Round2(Max(c, l.down * 100)) == l.down && Round2(c) <= l.down;
    }
  }

  /** A limit order is measured by the best opposite price, else by the best one of its own side,
      else by the last price, and its offset is added to that, for either direction. If the
      resulting price is allowed the order enters the book with it and matches; if not, nothing
      happens at all. */
  lemma LimitOrders(l: Limits, b: Book, o: Order)
    requires GoodBook(b) && o.kind == PRICE_LIMIT && 0 <= l.down <= l.up
    ensures var q :=
        if o.direction == Buy then
          if b.sells != [] then b.sells[0].price else if b.buys != [] then b.buys[0].price else b.acct.lastPrice
        else
          if b.buys != [] then b.buys[0].price else if b.sells != [] then b.sells[0].price else b.acct.lastPrice;
      var p := q + o.price;
      var allowed := l.down <= p <= l.up &&
        if o.direction == Buy then 100 * o.price <= Max(2 * q, 1000) + (if p == 0 then 150 else 50)
        else -100 * o.price < Max(2 * q, 1000) + 50;
      Place(l, b, o) == if allowed then Match(AddOrder(b, o.(price := p))) else b
  {
    hide Match, AddOrder, Accepted;
    var q := BasePrice(b, o.direction);
    AcceptedIff(l, q, o.(price := q + o.price));
    NotCrossedStays(b);
  }

  lemma AdmitOk(l: Limits, c: int, b: Book, o: Order)
    requires BookOk(l, c, b) && 0 <= l.down
    ensures Admit(l, b, o).Admitted? ==> InBand(l, Admit(l, b, o).price)
  {
    if o.kind == PRICE_LIMIT {
      var base := BasePrice(b, o.direction);
      if Accepted(l, base, o.(price := base + o.price)) {
        AcceptedInBand(l, base, o.(price := base + o.price));
      }
    } else {
      BaseOk(l, c, b, o.direction);
      assert Own(b, o.direction) != [] ==> Own(b, o.direction)[0] in Own(b, o.direction);
    }
  }

  lemma RestingOk(l: Limits, c: int, b: Book, o: Order)
    requires BookOk(l, c, b) && InBand(l, o.price) && o.timestamp <= c
    ensures BookOk(l, c, Match(AddOrder(b, o)))
  {
    hide SideOk, AccountOk, Match;
    AddOk(l, c, o.direction, Own(b, o.direction), o);
    MatchOk(l, c, AddOrder(b, o));
  }

  /** An order log of a taking type leaves no price outside the band: its own price, which is
    only the offset it was sent with, is in the band, or it comes later than every resting
    order it trades with. Can be checked on the book before the order enters. */
  ghost predicate Harmless(l: Limits, b: Book, o: Order) {
    var s := Opp(b, o.direction);
    o.kind > OUR_BEST_PRICE ==>
      InBand(l, o.price) || forall i :: 0 <= i < InReach(b, o) && Total(s[..i]) < o.volume ==> Later(o, s[i])
  }

  lemma HarmlessIff(l: Limits, c: int, b: Book, o: Order)
    requires SideOk(l, c, Opp(b, o.direction)) && o.kind > OUR_BEST_PRICE
    ensures Harmless(l, b, o) <==> TradesInBand(l, o, Opp(b, o.direction)[..InReach(b, o)])
  {
    var s, k := Opp(b, o.direction), InReach(b, o);
    forall i | 0 <= i < k
      ensures s[..k][i] == s[i] && s[..k][..i] == s[..i]
      ensures InBand(l, PriceWith(o, s[i])) <==> Later(o, s[i]) || InBand(l, o.price)
    {
      assert s[i] in s;
      MakerPriceIff(o, s[i]);
      assert PriceWith(o, s[i]) == s[i].price || PriceWith(o, s[i]) == o.price;
    }
    hide InBand, Later, PriceWith, InReach;
    if TradesInBand(l, o, s[..k]) && !InBand(l, o.price) {
      forall i | 0 <= i < k && Total(s[..i]) < o.volume ensures Later(o, s[i]) {
        assert Reaches(false, o, s[..k], i);
      }
    }
  }

  /** The sides and the account of a taking order, whatever its time stamp. */
  lemma TakingBandIff(l: Limits, c: int, b: Book, o: Order)
    requires GoodBook(b) && BookOk(l, c, b) && o.kind > OUR_BEST_PRICE
    ensures var e := TakeOnly(b, o, InReach(b, o));
      if Harmless(l, b, o) then BookOk(l, c, e) else !TapeInBand(l, e.acct.tape)
  {
    hide TapeInBand, TradesInBand, Harmless, InReach, Sweep;
    var s, k := Opp(b, o.direction), InReach(b, o);
    assert forall x :: x in s[..k] || x in s[k..] ==> x in s;
    PrefixSorted(Opposite(o.direction), s, k);
    SweepBandIff(l, c, o, s[..k], b.acct);
    HarmlessIff(l, c, b, o);
  }

  lemma PlaceIsTakeOnly(l: Limits, b: Book, o: Order)
    requires GoodBook(b) && o.kind > OUR_BEST_PRICE && o.volume > 0
    ensures Place(l, b, o) == TakeOnly(b, o, InReach(b, o))
  {
    hide TakeOnly;
    if InReach(b, o) == 0 {
      TakeNothing(b, o);
    }
  }

  lemma TakeNothing(b: Book, o: Order)
    ensures TakeOnly(b, o, 0) == b
  {
    SweepWithinDone(o, Opp(b, o.direction), b.acct, 0);
  }

  /** One order log keeps all prices in the band exactly if it is harmless; otherwise the tape
      shows a price outside. The three resting types are always harmless. */
  lemma PlaceBandIff(l: Limits, c: int, b: Book, o: Order)
    requires GoodBook(b) && BookOk(l, c, b) && 0 <= l.down && o.volume > 0
    ensures var e := Place(l, b, o);
      if Harmless(l, b, o) then BookOk(l, Max(c, o.timestamp), e) else !TapeInBand(l, e.acct.tape)
  {
    hide Match, AddOrder, AccountOk, TakeOnly, InReach;
    WiderOk(l, c, Max(c, o.timestamp), b);
    if o.kind <= OUR_BEST_PRICE {
      AdmitOk(l, c, b, o);
      match Admit(l, b, o)
      case Admitted(p) => RestingOk(l, Max(c, o.timestamp), b, o.(price := p));
      case Rejected => NotCrossedStays(b);
    } else {
      PlaceIsTakeOnly(l, b, o);
      TakingBandIff(l, Max(c, o.timestamp), b, o);
    }
  }

  lemma {:induction false} InjectOk(l: Limits, c: int, st: State, t: int)
    requires BookOk(l, c, st.book)
    ensures BookOk(l, Max(c, t - 1), Inject(st, t).book)
    decreases |st.twaps| - st.head
  {
    hide SideOk, AccountOk, Match, AddOrder;
    WiderOk(l, c, Max(c, t - 1), st.book);
    if st.head < |st.twaps| && st.twaps[st.head].timestamp < t {
      var o := st.twaps[st.head].(price := BasePrice(st.book, st.twaps[st.head].direction));
      BaseOk(l, c, st.book, o.direction);
      RestingOk(l, Max(c, t - 1), st.book, o);
      MatchOk(l, Max(c, t - 1), st.book);
      InjectOk(l, Max(c, t - 1), InjectOne(st), t);
    }
  }

  lemma WiderOk(l: Limits, c: int, c': int, b: Book)
    requires BookOk(l, c, b) && c <= c'
    ensures BookOk(l, c', b)
  {
  }

  // ------------------------------------------- a price on the tape stays there

  lemma {:induction false} MatchTapeStays(l: Limits, b: Book)
    requires !TapeInBand(l, b.acct.tape)
    ensures !TapeInBand(l, Match(b).acct.tape)
    decreases |b.sells| + |b.buys|
  {
    if Crossed(b) {
      hide TapeInBand;
      var v := Min(b.sells[0].volume, b.buys[0].volume);
      PushBandIff(l, b.acct.tape, FillOf(b.sells[0], b.buys[0], v));
      MatchTapeStays(l, TradeTops(b, v));
    }
  }

  lemma {:induction false} SweepTapeStays(l: Limits, inc: Order, rest: seq<Order>, a: Account)
    requires !TapeInBand(l, a.tape)
    ensures !TapeInBand(l, Sweep(false, inc, rest, a).acct.tape)
    decreases |rest| + if inc.volume > 0 then 1 else 0
  {
    if Fit(false, inc, rest) {
      hide TapeInBand;
      var v := Min(inc.volume, rest[0].volume);
      PushBandIff(l, a.tape, FillWith(inc, rest[0], v));
      SweepTapeStays(l, Reduce(inc, v), Take(rest, v), TradeWith(a, inc, rest[0], v));
    }
  }

  lemma PlaceTapeStays(l: Limits, m: Limits, b: Book, o: Order)
    requires !TapeInBand(l, b.acct.tape)
    ensures !TapeInBand(l, Place(m, b, o).acct.tape)
  {
    hide TapeInBand, Match, Add, Sweep, Reach, Admit;
    var s := Opp(b, o.direction);
    if o.kind <= OUR_BEST_PRICE {
      match Admit(m, b, o)
      case Admitted(p) => MatchTapeStays(l, AddOrder(b, o.(price := p)));
      case Rejected => MatchTapeStays(l, b);
    } else {
      SweepTapeStays(l, o, s[..Reach(s, 0, -100)], b.acct);
      SweepTapeStays(l, o, s[..|s|], b.acct);
    }
  }

  lemma {:induction false} InjectTapeStays(l: Limits, st: State, t: int)
    requires !TapeInBand(l, st.book.acct.tape)
    ensures !TapeInBand(l, Inject(st, t).book.acct.tape)
    decreases |st.twaps| - st.head
  {
    if st.head < |st.twaps| && st.twaps[st.head].timestamp < t {
      hide TapeInBand, Match, Add;
      var o := st.twaps[st.head].(price := BasePrice(st.book, st.twaps[st.head].direction));
      MatchTapeStays(l, if o.volume != 0 then AddOrder(st.book, o) else st.book);
      InjectTapeStays(l, InjectOne(st), t);
    }
  }

  lemma {:induction false} RunTapeStays(s: Session, l: Limits, m: Limits, st: State, ops: seq<Op>)
    requires s.num > 0 && !TapeInBand(l, st.book.acct.tape)
    ensures !TapeInBand(l, Run(s, m, st, ops).book.acct.tape)
    decreases |ops|
  {
    if ops != [] {
      hide TapeInBand, Inject, Place;
      match ops[0] {
        case AlphaOp(_) =>
        case CompleteOp => InjectTapeStays(l, st, MAX_INT);
        case LogOp(o) =>
          InjectTapeStays(l, st, o.timestamp);
          PlaceTapeStays(l, m, Inject(st, o.timestamp).book, o);
      }
      RunTapeStays(s, l, m, Step(s, m, st, ops[0]), ops[1..]);
    }
  }

  // --------------------------------------------------------------------- runs

  ghost predicate HarmlessOp(l: Limits, st: State, op: Op) {
    op.LogOp? ==> Harmless(l, Inject(st, op.log.timestamp).book, op.log)
  }

  /** Every order log of a run is harmless on the book it meets. */
  ghost predicate HarmlessRun(s: Session, l: Limits, st: State, ops: seq<Op>)
    requires s.num > 0
    decreases |ops|
  {
    ops != [] ==> HarmlessOp(l, st, ops[0]) && HarmlessRun(s, l, Step(s, l, st, ops[0]), ops[1..])
  }

  /** No time stamp that has been seen is later than this. */
  function Clock(c: int, op: Op): int {
    match op
    case AlphaOp(_) => c
    case CompleteOp => Max(c, MAX_INT - 1)
    case LogOp(o) => Max(c, o.timestamp)
  }

  lemma StepBandIff(s: Session, l: Limits, c: int, st: State, op: Op, prevPosition: int)
    requires s.num > 0 && 0 <= l.down && Invariant(st, prevPosition) && BookOk(l, c, st.book)
    requires op.LogOp? ==> op.log.volume > 0
    ensures var e := Step(s, l, st, op).book;
      if HarmlessOp(l, st, op) then BookOk(l, Clock(c, op), e) else !TapeInBand(l, e.acct.tape)
  {
    hide BookOk, TapeInBand, Invariant, Place, InjectOne, Harmless;
    match op
    case AlphaOp(_) =>
    case CompleteOp => InjectOk(l, c, st, MAX_INT);
    case LogOp(o) =>
      InjectOk(l, c, st, o.timestamp);
      InjectKeeps(st, o.timestamp, prevPosition);
      GoodState(Inject(st, o.timestamp), prevPosition);
      PlaceBandIff(l, Max(c, o.timestamp - 1), Inject(st, o.timestamp).book, o);
  }

  lemma {:induction false} RunBandIff(s: Session, l: Limits, c: int, st: State, ops: seq<Op>, prevPosition: int)
      returns (c': int)
    requires s.num > 0 && 0 <= l.down && Invariant(st, prevPosition) && BookOk(l, c, st.book) && ValidOps(ops)
    ensures var e := Run(s, l, st, ops).book;
      if HarmlessRun(s, l, st, ops) then BookOk(l, c', e) else !TapeInBand(l, e.acct.tape)
    decreases |ops|
  {
    c' := c;
    if ops != [] {
      hide BookOk, TapeInBand, Invariant, Step, HarmlessOp;
      StepBandIff(s, l, c, st, ops[0], prevPosition);
      if HarmlessOp(l, st, ops[0]) {
        StepKeeps(s, l, st, ops[0], prevPosition);
        c' := RunBandIff(s, l, Clock(c, ops[0]), Step(s, l, st, ops[0]), ops[1..], prevPosition);
      } else {
        RunTapeStays(s, l, l, Step(s, l, st, ops[0]), ops[1..]);
      }
    }
  }

  /** All resting, traded and last prices are within the limits. */
  ghost predicate InDayLimits(l: Limits, b: Book) {
    && (forall o :: o in b.sells || o in b.buys ==> l.down <= o.price <= l.up)
    && (forall f :: f in b.acct.tape ==> l.down <= f.price <= l.up)
    && l.down <= b.acct.lastPrice <= l.up
  }

  /** Whatever the alphas, the order logs and their time stamps are: at the end of a run all
      prices are within the day's limits exactly if every order log was harmless. */
  lemma BandOnRunsIff(s: Session, prevClose: nat, prevPosition: int, ops: seq<Op>)
    requires s.num > 0 && ValidOps(ops)
    ensures var l, st := InitialLimits(prevClose), Initial(prevClose, prevPosition);
      InDayLimits(l, Run(s, l, st, ops).book) <==> HarmlessRun(s, l, st, ops)
  {
    var l, st := InitialLimits(prevClose), Initial(prevClose, prevPosition);
    DayLimits(prevClose);
    StartOk(l, prevClose, prevPosition);
    InvariantAtStart(prevClose, prevPosition);
    var c' := RunBandIff(s, l, 0, st, ops, prevPosition);
  }

  lemma StartOk(l: Limits, prevClose: int, prevPosition: int)
    requires InBand(l, prevClose)
    ensures forall c :: BookOk(l, c, Initial(prevClose, prevPosition).book)
  {
  }

  // ---------------------------------------------------- order logs in time order

  /** The order logs come in time order from time c on, strictly so for sales that only take
      (and for all order logs if `strict`); nothing is logged after completion. */
  predicate Timely(strict: bool, c: int, ops: seq<Op>)
    decreases |ops|
  {
    ops == [] ||
    match ops[0]
    case AlphaOp(_) => Timely(strict, c, ops[1..])
    case CompleteOp => Timely(strict, Max(c, MAX_INT - 1), ops[1..])
    case LogOp(o) =>
      && c <= o.timestamp
      && (strict || (o.kind > OUR_BEST_PRICE && o.direction == Sale) ==> c < o.timestamp)
      && Timely(strict, o.timestamp, ops[1..])
  }

  /** An order log that comes late enough for every resting order. */
  lemma LateEnough(l: Limits, c: int, b: Book, o: Order)
    requires BookOk(l, c, b) && c <= o.timestamp
    ensures (o.kind > OUR_BEST_PRICE && o.direction == Sale ==> c < o.timestamp) ==> Harmless(l, b, o)
    ensures c < o.timestamp ==> PlacePunctual(l, b, o)
  {
    var s := Opp(b, o.direction);
    forall i | 0 <= i < |s| ensures s[i].timestamp <= c {
      assert s[i] in s;
    }
  }

  lemma {:induction false} TimelyRun(strict: bool, s: Session, l: Limits, c: int, st: State, ops: seq<Op>,
                                     prevPosition: int)
    requires s.num > 0 && 0 <= l.down && Invariant(st, prevPosition) && BookOk(l, c, st.book)
    requires ValidOps(ops) && Timely(strict, c, ops)
    ensures HarmlessRun(s, l, st, ops) && (strict ==> RunPunctual(s, l, st, ops))
    decreases |ops|
  {
    if ops != [] {
      hide BookOk, Invariant, Step, Harmless, PlacePunctual;
      if ops[0].LogOp? {
        var o := ops[0].log;
        InjectOk(l, c, st, o.timestamp);
        LateEnough(l, Max(c, o.timestamp - 1), Inject(st, o.timestamp).book, o);
      }
      StepBandIff(s, l, c, st, ops[0], prevPosition);
      StepKeeps(s, l, st, ops[0], prevPosition);
      TimelyRun(strict, s, l, Clock(c, ops[0]), Step(s, l, st, ops[0]), ops[1..], prevPosition);
    }
  }

  /** If the order logs come in time order and no taking sale shares its time stamp with the
      log before it, all prices stay within the day's limits, and the rounding of negative
      prices cannot disturb the profit. */
  lemma BandOnEveryRun(s: Session, prevClose: nat, prevPosition: int, c: int, ops: seq<Op>)
    requires s.num > 0 && ValidOps(ops) && Timely(false, c, ops)
    ensures var l := InitialLimits(prevClose);
      var b := Run(s, l, Initial(prevClose, prevPosition), ops).book;
      && 0 <= l.down <= prevClose <= l.up && InDayLimits(l, b)
      && (forall fills :: Tape(fills) == b.acct.tape ==> Slips(fills) == 0)
  {
    var l, st := InitialLimits(prevClose), Initial(prevClose, prevPosition);
    DayLimits(prevClose);
    StartOk(l, prevClose, prevPosition);
    InvariantAtStart(prevClose, prevPosition);
    TimelyRun(false, s, l, c, st, ops, prevPosition);
    BandOnRunsIff(s, prevClose, prevPosition, ops);
    forall fills | Tape(fills) == Run(s, l, st, ops).book.acct.tape ensures Slips(fills) == 0 {
      NoSlips(fills);
    }
  }

  /** If no two order logs share a time stamp, every trade of the day, including those of the
      TWAP orders, is made at the resting order's price. */
  lemma MakerPriceOnEveryRun(s: Session, prevClose: nat, prevPosition: int, c: int, ops: seq<Op>)
    requires s.num > 0 && ValidOps(ops) && Timely(true, c, ops)
    ensures RunAtMaker(s, InitialLimits(prevClose), Initial(prevClose, prevPosition), ops)
  {
    var l, st := InitialLimits(prevClose), Initial(prevClose, prevPosition);
    DayLimits(prevClose);
    StartOk(l, prevClose, prevPosition);
    InvariantAtStart(prevClose, prevPosition);
    TimelyRun(true, s, l, c, st, ops, prevPosition);
    MakerPriceOnRunsIff(s, prevClose, prevPosition, ops);
  }
}
