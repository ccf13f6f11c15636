/** Which resting orders an incoming order trades with, and when all trades are made at the
    resting order's price: the exact condition for one trade, one order and a whole run. */
module MakerPrice {
  import opened Orders
  import opened PriorityBook
  import opened Matching
  import opened ContractSpec
  import opened Ledger
  import opened Accounting

  // ---------------------------------------------------------------- one trade

  function PriceWith(inc: Order, r: Order): int {
    if inc.direction == Sale then TradePrice(inc, r) else TradePrice(r, inc)
  }

  /** The incoming order is late enough not to set the price itself. */
  predicate Later(inc: Order, r: Order) {
    if inc.direction == Sale then r.timestamp < inc.timestamp else r.timestamp <= inc.timestamp
  }

  /** A trade is made at the resting order's price exactly if the two prices agree or the
      incoming order is the later one; an incoming sale must be strictly later. */
  lemma MakerPriceIff(inc: Order, r: Order)
    ensures PriceWith(inc, r) == r.price <==> inc.price == r.price || Later(inc, r)
  {
    if inc.direction == Sale {
      assert PriceWith(inc, r) == if inc.price == r.price || inc.timestamp > r.timestamp then r.price else inc.price;
    } else {
      assert PriceWith(inc, r) == if inc.price == r.price || r.timestamp <= inc.timestamp then r.price else inc.price;
    }
  }

  /** Entry i is traded: what is before it does not fill the order, and a limited order's price
      reaches it. */
  predicate Reaches(limited: bool, inc: Order, s: seq<Order>, i: int) {
    && 0 <= i < |s| && Total(s[..i]) < inc.volume
    && (limited ==> Crosses(inc.direction, inc.price, s[i].price))
  }

  /** The entries that are reached after the first trade are those that were reached before,
      without the first one. */
  lemma ReachesStep(limited: bool, inc: Order, s: seq<Order>, i: nat)
    requires Sorted(Opposite(inc.direction), s) && Fit(limited, inc, s)
    ensures Reaches(limited, inc, s, 0)
    ensures var v := Min(inc.volume, s[0].volume);
      var inc', s' := Reduce(inc, v), Take(s, v);
      && (Reaches(limited, inc', s', i) <==> Reaches(limited, inc, s, i + 1))
      && (Reaches(limited, inc', s', i) ==> s'[i] == s[i + 1])
  {
    var d, v := Opposite(inc.direction), Min(inc.volume, s[0].volume);
    var s' := Take(s, v);
    if i + 1 <= |s| {
      assert s[..i + 1][1..] == s[1..][..i];
      PrefixSorted(d, s[1..], i);
      TotalPositive(d, s[1..][..i]);
    }
    if v != s[0].volume && i < |s'| {
      TakeSorted(d, s, v);
      PrefixSorted(d, s', i);
      TotalPositive(d, s'[..i]);
    }
  }

  lemma PrefixSorted(d: Direction, s: seq<Order>, k: nat)
    requires Sorted(d, s) && k <= |s|
    ensures Sorted(d, s[..k])
  {
  }

  /** Every trade of a sweep is made at the resting order's price. */
  predicate AtMaker(limited: bool, inc: Order, rest: seq<Order>)
    decreases |rest| + if inc.volume > 0 then 1 else 0
  {
    Fit(limited, inc, rest) ==>
      var v := Min(inc.volume, rest[0].volume);
      PriceWith(inc, rest[0]) == rest[0].price && AtMaker(limited, Reduce(inc, v), Take(rest, v))
  }

  /** The incoming order has the price of every entry it trades with or is the later one. */
  ghost predicate Punctual(limited: bool, inc: Order, s: seq<Order>) {
    forall i :: Reaches(limited, inc, s, i) ==> inc.price == s[i].price || Later(inc, s[i])
  }

  lemma PunctualStep(limited: bool, inc: Order, s: seq<Order>)
    requires Sorted(Opposite(inc.direction), s) && Fit(limited, inc, s)
    ensures var v := Min(inc.volume, s[0].volume);
      Punctual(limited, inc, s) <==>
        (inc.price == s[0].price || Later(inc, s[0])) && Punctual(limited, Reduce(inc, v), Take(s, v))
  {
    hide Total, Crosses, Take, Sorted;
    var v := Min(inc.volume, s[0].volume);
    var inc', s' := Reduce(inc, v), Take(s, v);
    ReachesStep(limited, inc, s, 0);
    if Punctual(limited, inc, s) {
      forall i | 0 <= i < |s'| && Reaches(limited, inc', s', i)
        ensures inc'.price == s'[i].price || Later(inc', s'[i])
      {
        ReachesStep(limited, inc, s, i);
      }
    }
    if (inc.price == s[0].price || Later(inc, s[0])) && Punctual(limited, inc', s') {
      forall i | 0 <= i < |s| && Reaches(limited, inc, s, i) ensures inc.price == s[i].price || Later(inc, s[i]) {
        if i > 0 {
          ReachesStep(limited, inc, s, i - 1);
        }
      }
    }
  }

  lemma {:induction false} SweepAtMakerIff(limited: bool, inc: Order, rest: seq<Order>)
    requires Sorted(Opposite(inc.direction), rest)
    ensures AtMaker(limited, inc, rest) <==> Punctual(limited, inc, rest)
    decreases |rest| + if inc.volume > 0 then 1 else 0
  {
    if Fit(limited, inc, rest) {
      hide Punctual, Sorted;
      var v := Min(inc.volume, rest[0].volume);
      PositiveHead(Opposite(inc.direction), rest, []);
      TakeSorted(Opposite(inc.direction), rest, v);
      MakerPriceIff(inc, rest[0]);
      PunctualStep(limited, inc, rest);
      SweepAtMakerIff(limited, Reduce(inc, v), Take(rest, v));
    } else {
      NothingReached(limited, inc, rest);
    }
  }

  /** An order that does not fit the first entry reaches none. */
  lemma NothingReached(limited: bool, inc: Order, s: seq<Order>)
    requires Sorted(Opposite(inc.direction), s) && !Fit(limited, inc, s)
    ensures forall i :: !Reaches(limited, inc, s, i)
  {
    forall i ensures !Reaches(limited, inc, s, i) {
      if 0 <= i < |s| {
        PrefixSorted(Opposite(inc.direction), s, i);
        TotalPositive(Opposite(inc.direction), s[..i]);
        assert i > 0 ==> Before(Opposite(inc.direction), s[0], s[i]);
      }
    }
  }

  // --------------------------------------------------------- orders and runs

  /** How many entries an order of a taking type may trade with. */
  function InReach(b: Book, o: Order): (k: nat)
    ensures k <= |Opp(b, o.direction)|
  {
    var opp := Opp(b, o.direction);
    if o.kind == BEST_FIVE_PRICE_NO_LEFT then Reach(opp, 0, -100)
    else if o.kind == IMMEDIATE_DEAL_NO_LEFT || (o.kind == ALL_OR_NOTHING && Total(opp) >= o.volume) then |opp|
    else 0
  }

  /** All trades of an order log are made at the resting order's price. */
  predicate PlaceAtMaker(l: Limits, b: Book, o: Order) {
    var opp := Opp(b, o.direction);
    if o.kind <= OUR_BEST_PRICE then
      Admit(l, b, o).Admitted? ==> AtMaker(true, o.(price := Admit(l, b, o).price), opp)
    else AtMaker(false, o, opp[..InReach(b, o)])
  }

  /** It has the price of, or comes later than, every order it trades with. */
  ghost predicate PlacePunctual(l: Limits, b: Book, o: Order) {
    var opp := Opp(b, o.direction);
    if o.kind <= OUR_BEST_PRICE then
      Admit(l, b, o).Admitted? ==> Punctual(true, o.(price := Admit(l, b, o).price), opp)
    else Punctual(false, o, opp[..InReach(b, o)])
  }

  lemma PlaceAtMakerIff(l: Limits, b: Book, o: Order)
    requires GoodBook(b)
    ensures PlaceAtMaker(l, b, o) <==> PlacePunctual(l, b, o)
  {
    hide AtMaker, Punctual, Admit;
    var opp := Opp(b, o.direction);
    if o.kind <= OUR_BEST_PRICE {
      if Admit(l, b, o).Admitted? {
        SweepAtMakerIff(true, o.(price := Admit(l, b, o).price), opp);
      }
    } else {
      PrefixSorted(Opposite(o.direction), opp, InReach(b, o));
      SweepAtMakerIff(false, o, opp[..InReach(b, o)]);
    }
  }

  predicate InjectAtMaker(st: State, t: int)
    decreases |st.twaps| - st.head
  {
    st.head < |st.twaps| && st.twaps[st.head].timestamp < t ==>
      var o := st.twaps[st.head].(price := BasePrice(st.book, st.twaps[st.head].direction));
      AtMaker(true, o, Opp(st.book, o.direction)) && InjectAtMaker(InjectOne(st), t)
  }

  /** All trades of a run are made at the resting order's price. */
  predicate RunAtMaker(s: Session, l: Limits, st: State, ops: seq<Op>)
    requires s.num > 0
    decreases |ops|
  {
    ops != [] ==>
      && (ops[0].CompleteOp? ==> InjectAtMaker(st, MAX_INT))
      && (ops[0].LogOp? ==> var o := ops[0].log;
           InjectAtMaker(st, o.timestamp) && PlaceAtMaker(l, Inject(st, o.timestamp).book, o))
      && RunAtMaker(s, l, Step(s, l, st, ops[0]), ops[1..])
  }

  /** Every order log of a run is punctual on the book it meets. */
  ghost predicate RunPunctual(s: Session, l: Limits, st: State, ops: seq<Op>)
    requires s.num > 0
    decreases |ops|
  {
    ops != [] ==>
      && (ops[0].LogOp? ==> PlacePunctual(l, Inject(st, ops[0].log.timestamp).book, ops[0].log))
      && RunPunctual(s, l, Step(s, l, st, ops[0]), ops[1..])
  }

  /** A TWAP order is priced at the best opposite price, so it trades at that price only. */
  lemma {:induction false} TwapsAtMaker(st: State, t: int, prevPosition: int)
    requires Invariant(st, prevPosition)
    ensures InjectAtMaker(st, t)
    decreases |st.twaps| - st.head
  {
    if st.head < |st.twaps| && st.twaps[st.head].timestamp < t {
      hide Sorted, InjectOne, Match, AtMaker, Balance, Booked;
      var o := st.twaps[st.head].(price := BasePrice(st.book, st.twaps[st.head].direction));
      BasePunctual(st.book, o);
      SweepAtMakerIff(true, o, Opp(st.book, o.direction));
      InjectOneKeeps(st, prevPosition);
      InjectOneAdvances(st);
      TwapsAtMaker(InjectOne(st), t, prevPosition);
    }
  }

  lemma BasePunctual(b: Book, o: Order)
    requires GoodBook(b) && o.price == BasePrice(b, o.direction)
    ensures Punctual(true, o, Opp(b, o.direction))
  {
    var s := Opp(b, o.direction);
    forall i | Reaches(true, o, s, i) ensures o.price == s[i].price {
      assert i > 0 ==> Before(Opposite(o.direction), s[0], s[i]);
    }
  }

  lemma {:induction false} RunAtMakerIff(s: Session, l: Limits, st: State, ops: seq<Op>, prevPosition: int)
    requires s.num > 0 && Invariant(st, prevPosition) && ValidOps(ops)
    ensures RunAtMaker(s, l, st, ops) <==> RunPunctual(s, l, st, ops)
    decreases |ops|
  {
    if ops != [] {
      hide Invariant, Step, InjectAtMaker, PlaceAtMaker, PlacePunctual;
      if ops[0].LogOp? {
        var o := ops[0].log;
        TwapsAtMaker(st, o.timestamp, prevPosition);
        InjectKeeps(st, o.timestamp, prevPosition);
        GoodState(Inject(st, o.timestamp), prevPosition);
        PlaceAtMakerIff(l, Inject(st, o.timestamp).book, o);
      } else {
        TwapsAtMaker(st, MAX_INT, prevPosition);
      }
      StepKeeps(s, l, st, ops[0], prevPosition);
      RunAtMakerIff(s, l, Step(s, l, st, ops[0]), ops[1..], prevPosition);
    }
  }

  /** On every run, whatever the time stamps: all trades of the day, those of the TWAP orders
      included, are made at the resting order's price exactly if every order log has the
      price of, or comes later than, each order it trades with. */
  lemma MakerPriceOnRunsIff(s: Session, prevClose: int, prevPosition: int, ops: seq<Op>)
    requires s.num > 0 && ValidOps(ops)
    ensures var l, st := InitialLimits(prevClose), Initial(prevClose, prevPosition);
      RunAtMaker(s, l, st, ops) <==> RunPunctual(s, l, st, ops)
  {
    var st := Initial(prevClose, prevPosition);
    InvariantAtStart(prevClose, prevPosition);
    RunAtMakerIff(s, InitialLimits(prevClose), st, ops, prevPosition);
  }
}
