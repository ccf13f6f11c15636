/** Where the orders on the book and the parties on the tape come from, and what price a fill
    has: nothing rests or trades that was not sent or injected, on its own side. */
module Origins {
  import opened Orders
  import opened PriorityBook
  import opened Matching
  import opened ContractSpec
  import opened Ledger
  import opened Accounting
  import opened TwapSchedule

  /** The parties that may appear, each with its side. */
  type Parties = iset<(Direction, Party)>

  ghost predicate SideTraced(k: Parties, d: Direction, s: seq<Order>) {
    forall o :: o in s ==> o.volume > 0 && (d, PartyOf(o)) in k
  }

  /** The parties may appear, and the price is theirs if they agree, else the earlier one's, the
      sale's at equal time stamps. */
  ghost predicate Lawful(k: Parties, f: Fill) {
    && f.volume > 0 && (Sale, f.sale) in k && (Buy, f.buy) in k
    && f.price == if f.sale.timestamp > f.buy.timestamp then f.buy.price else f.sale.price
  }

  /** All fills are lawful, and the last price is that of the last one, or the one at the start. */
  ghost predicate AccountTraced(k: Parties, start: int, a: Account) {
    && (forall f :: f in a.tape ==> Lawful(k, f))
    && a.lastPrice == if a.tape == [] then start else a.tape[|a.tape| - 1].price
  }

  ghost predicate BookTraced(k: Parties, start: int, b: Book) {
    SideTraced(k, Sale, b.sells) && SideTraced(k, Buy, b.buys) && AccountTraced(k, start, b.acct)
  }

  // ----------------------------------------------------------------- single steps

  lemma TradeTraced(k: Parties, start: int, a: Account, sale: Order, buy: Order, v: int)
    requires AccountTraced(k, start, a) && v > 0
    requires (Sale, PartyOf(sale)) in k && (Buy, PartyOf(buy)) in k
    ensures AccountTraced(k, start, Trade(a, sale, buy, v))
  {
    var f, t := FillOf(sale, buy, v), a.tape;
    assert t != [] ==> t[|t| - 1] in t;
    forall g | g in Push(t, f) ensures Lawful(k, g) {
      assert g in t || g == f || (t != [] && g == f.(volume := t[|t| - 1].volume + v));
    }
  }

  lemma TakeTraced(k: Parties, d: Direction, s: seq<Order>, v: int)
    requires SideTraced(k, d, s) && s != [] && 0 < v <= s[0].volume
    ensures SideTraced(k, d, Take(s, v)) && (d, PartyOf(s[0])) in k
  {
    assert s[0] in s;
    forall o | o in Take(s, v) ensures o.volume > 0 && (d, PartyOf(o)) in k {
      assert o in s || (o == Reduce(s[0], v) && PartyOf(o) == PartyOf(s[0]));
    }
  }

  lemma {:induction false} AddTraced(k: Parties, d: Direction, s: seq<Order>, o: Order)
    requires SideTraced(k, d, s) && o.volume > 0 && (d, PartyOf(o)) in k
    ensures SideTraced(k, d, Add(d, s, o))
  {
    if s != [] {
      assert s[0] in s;
      if Before(d, s[0], o) {
        AddTraced(k, d, s[1..], o);
      } else if !Before(d, o, s[0]) {
        assert PartyOf(s[0].(volume := s[0].volume + o.volume)) == PartyOf(s[0]);
      }
    }
  }

  lemma {:induction false} MatchTraced(k: Parties, start: int, b: Book)
    requires BookTraced(k, start, b)
    ensures BookTraced(k, start, Match(b))
    decreases |b.sells| + |b.buys|
  {
    if Crossed(b) {
      var v := Min(b.sells[0].volume, b.buys[0].volume);
      assert b.sells[0] in b.sells && b.buys[0] in b.buys;
      hide SideTraced, AccountTraced, Trade;
      TakeTraced(k, Sale, b.sells, v);
      TakeTraced(k, Buy, b.buys, v);
      TradeTraced(k, start, b.acct, b.sells[0], b.buys[0], v);
      MatchTraced(k, start, TradeTops(b, v));
    }
  }

  lemma {:induction false} SweepTraced(k: Parties, start: int, inc: Order, rest: seq<Order>, a: Account)
    requires SideTraced(k, Opposite(inc.direction), rest) && AccountTraced(k, start, a)
    requires (inc.direction, PartyOf(inc)) in k
    ensures var r := Sweep(false, inc, rest, a);
      SideTraced(k, Opposite(inc.direction), r.rest) && AccountTraced(k, start, r.acct)
    decreases |rest| + if inc.volume > 0 then 1 else 0
  {
    if Fit(false, inc, rest) {
      var v := Min(inc.volume, rest[0].volume);
      assert rest[0] in rest;
      hide SideTraced, AccountTraced, Trade;
      TakeTraced(k, Opposite(inc.direction), rest, v);
      if inc.direction == Sale {
        TradeTraced(k, start, a, inc, rest[0], v);
      } else {
        TradeTraced(k, start, a, rest[0], inc, v);
      }
      SweepTraced(k, start, Reduce(inc, v), Take(rest, v), TradeWith(a, inc, rest[0], v));
    }
  }

  lemma RestingTraced(k: Parties, start: int, b: Book, o: Order)
    requires BookTraced(k, start, b) && o.volume > 0 && (o.direction, PartyOf(o)) in k
    ensures BookTraced(k, start, Match(AddOrder(b, o)))
  {
    hide SideTraced, AccountTraced, Match, Add;
    AddTraced(k, o.direction, Own(b, o.direction), o);
    MatchTraced(k, start, AddOrder(b, o));
  }

  lemma TakingTraced(k: Parties, start: int, b: Book, o: Order, n: nat)
    requires BookTraced(k, start, b) && (o.direction, PartyOf(o)) in k && n <= |Opp(b, o.direction)|
    ensures BookTraced(k, start, TakeOnly(b, o, n))
  {
    hide AccountTraced, Sweep;
    var s := Opp(b, o.direction);
    assert forall x :: x in s[..n] || x in s[n..] ==> x in s;
    SweepTraced(k, start, o, s[..n], b.acct);
  }

  /** The parties an order log can become: it keeps its side, time stamp and type, and its price
      unless it comes to rest. */
  predicate Becomes(o: Order, d: Direction, p: Party) {
    && d == o.direction && p.timestamp == o.timestamp && p.kind == o.kind
    && (o.kind > OUR_BEST_PRICE ==> p.price == o.price)
  }

  lemma PlaceTraced(k: Parties, start: int, l: Limits, b: Book, o: Order)
    requires BookTraced(k, start, b) && o.volume > 0
    requires o.kind < MY_CONTRACT ==> forall p :: Becomes(o, o.direction, p) ==> (o.direction, p) in k
    ensures BookTraced(k, start, Place(l, b, o))
  {
    hide BookTraced, Match, AddOrder, TakeOnly, Reach, Admit, Total;
    var s := Opp(b, o.direction);
    if o.kind <= OUR_BEST_PRICE {
      match Admit(l, b, o)
      case Admitted(q) =>
        assert Becomes(o, o.direction, PartyOf(o.(price := q)));
        RestingTraced(k, start, b, o.(price := q));
      case Rejected => MatchTraced(k, start, b);
    } else if o.kind <= ALL_OR_NOTHING {
      assert Becomes(o, o.direction, PartyOf(o));
      TakingTraced(k, start, b, o, Reach(s, 0, -100));
      TakingTraced(k, start, b, o, |s|);
    }
  }

  lemma Widened(k: Parties, k': Parties, start: int, b: Book)
    requires BookTraced(k, start, b) && k <= k'
    ensures BookTraced(k', start, b)
  {
  }

  // ------------------------------------------------------------------------ runs

  /** An own party is a slice that has been injected, with the side, the time and the price that
      it is recorded with; any other one is an order log that was sent. */
  ghost predicate Known(twaps: seq<Order>, head: nat, ops: seq<Op>, d: Direction, p: Party) {
    if p.kind == MY_CONTRACT then
      exists i :: 0 <= i < head && i < |twaps| && FromSlice(twaps[i], d, p)
    else
      exists i :: 0 <= i < |ops| && ops[i].LogOp? && Becomes(ops[i].log, d, p)
  }

  predicate FromSlice(slice: Order, d: Direction, p: Party) {
    d == slice.direction && p.timestamp == slice.timestamp && p.price == slice.price
  }

  ghost function KnownParties(twaps: seq<Order>, head: nat, ops: seq<Op>): Parties {
    iset d: Direction, p: Party | Known(twaps, head, ops, d, p) :: (d, p)
  }

  lemma KnownGrows(twaps: seq<Order>, head: nat, ops: seq<Op>, twaps': seq<Order>, head': nat, ops': seq<Op>)
    requires head <= head' && |twaps| <= |twaps'| && ops <= ops'
    requires forall i :: 0 <= i < head && i < |twaps| ==> twaps'[i] == twaps[i]
    ensures KnownParties(twaps, head, ops) <= KnownParties(twaps', head', ops')
  {
    forall d, p | Known(twaps, head, ops, d, p) ensures Known(twaps', head', ops', d, p) {
      if p.kind == MY_CONTRACT {
        var i :| 0 <= i < head && i < |twaps| && FromSlice(twaps[i], d, p);
        assert FromSlice(twaps'[i], d, p);
      } else {
        var i :| 0 <= i < |ops| && ops[i].LogOp? && Becomes(ops[i].log, d, p);
        assert ops'[i].LogOp? && Becomes(ops'[i].log, d, p);
      }
    }
  }

  ghost predicate Traced(start: int, st: State, ops: seq<Op>) {
    BookTraced(KnownParties(st.twaps, st.head, ops), start, st.book)
  }

  lemma InjectOneTraced(start: int, st: State, ops: seq<Op>)
    requires Traced(start, st, ops) && st.head < |st.twaps| && TwapOrders(st.twaps)
    ensures Traced(start, InjectOne(st), ops)
  {
    hide BookTraced, Match, AddOrder, BasePrice, KnownParties;
    var st' := InjectOne(st);
    var k, k' := KnownParties(st.twaps, st.head, ops), KnownParties(st'.twaps, st'.head, ops);
    KnownGrows(st.twaps, st.head, ops, st'.twaps, st'.head, ops);
    Widened(k, k', start, st.book);
    var o := st'.twaps[st.head];
    assert st.twaps[st.head] in st.twaps;
    InjectedIsKnown(st'.twaps, st'.head, ops, st.head);
    if o.volume != 0 {
      RestingTraced(k', start, st.book, o);
    } else {
      MatchTraced(k', start, st.book);
    }
  }

  lemma InjectedIsKnown(twaps: seq<Order>, head: nat, ops: seq<Op>, i: nat)
    requires i < head && i < |twaps| && twaps[i].kind == MY_CONTRACT
    ensures (twaps[i].direction, PartyOf(twaps[i])) in KnownParties(twaps, head, ops)
  {
    assert FromSlice(twaps[i], twaps[i].direction, PartyOf(twaps[i]));
  }

  lemma {:induction false} InjectTraced(start: int, st: State, t: int, ops: seq<Op>, prevPosition: int)
    requires Traced(start, st, ops) && Invariant(st, prevPosition)
    ensures Traced(start, Inject(st, t), ops)
    decreases |st.twaps| - st.head
  {
    if st.head < |st.twaps| && st.twaps[st.head].timestamp < t {
      InjectOneTraced(start, st, ops);
      InjectOneKeeps(st, prevPosition);
      hide Traced, InjectOne, Invariant;
      InjectOneAdvances(st);
      InjectTraced(start, InjectOne(st), t, ops, prevPosition);
    }
  }

  lemma LogTraced(start: int, l: Limits, st: State, o: Order, before: seq<Op>)
    requires Traced(start, st, before) && o.volume > 0
    ensures Traced(start, st.(book := Place(l, st.book, o)), before + [LogOp(o)])
  {
    hide BookTraced, Place, KnownParties;
    var ops := before + [LogOp(o)];
    var k, k' := KnownParties(st.twaps, st.head, before), KnownParties(st.twaps, st.head, ops);
    KnownGrows(st.twaps, st.head, before, st.twaps, st.head, ops);
    Widened(k, k', start, st.book);
    if o.kind < MY_CONTRACT {
      forall p | Becomes(o, o.direction, p) ensures (o.direction, p) in k' {
        SentIsKnown(st.twaps, st.head, ops, |before|, p);
      }
    }
    PlaceTraced(k', start, l, st.book, o);
  }

  lemma SentIsKnown(twaps: seq<Order>, head: nat, ops: seq<Op>, i: nat, p: Party)
    requires i < |ops| && ops[i].LogOp? && ops[i].log.kind < MY_CONTRACT
    requires Becomes(ops[i].log, ops[i].log.direction, p)
    ensures (ops[i].log.direction, p) in KnownParties(twaps, head, ops)
  {
  }

  lemma MoreEvents(start: int, st: State, before: seq<Op>, op: Op)
    requires Traced(start, st, before)
    ensures Traced(start, st, before + [op])
  {
    hide BookTraced;
    KnownGrows(st.twaps, st.head, before, st.twaps, st.head, before + [op]);
    Widened(KnownParties(st.twaps, st.head, before), KnownParties(st.twaps, st.head, before + [op]), start, st.book);
  }

  lemma StepTraced(start: int, s: Session, l: Limits, st: State, op: Op, before: seq<Op>, prevPosition: int)
    requires s.num > 0 && Traced(start, st, before) && Invariant(st, prevPosition)
    requires op.LogOp? ==> op.log.volume > 0
    ensures Traced(start, Step(s, l, st, op), before + [op])
  {
    match op
    case AlphaOp(alpha) =>
      AlphaTraced(start, s, st, alpha, before);
      MoreEvents(start, InsertAlpha(s, st, alpha), before, op);
    case CompleteOp =>
      InjectTraced(start, st, MAX_INT, before, prevPosition);
      MoreEvents(start, Inject(st, MAX_INT), before, op);
    case LogOp(o) =>
      InjectTraced(start, st, o.timestamp, before, prevPosition);
      LogTraced(start, l, Inject(st, o.timestamp), o, before);
  }

  lemma AlphaTraced(start: int, s: Session, st: State, alpha: Alpha, ops: seq<Op>)
    requires s.num > 0 && Traced(start, st, ops)
    ensures Traced(start, InsertAlpha(s, st, alpha), ops)
  {
    hide BookTraced, KnownParties, Slices;
    var st' := InsertAlpha(s, st, alpha);
    KnownGrows(st.twaps, st.head, ops, st'.twaps, st'.head, ops);
    Widened(KnownParties(st.twaps, st.head, ops), KnownParties(st'.twaps, st'.head, ops), start, st.book);
  }

  lemma {:induction false} RunTraced(start: int, s: Session, l: Limits, st: State, ops: seq<Op>, before: seq<Op>,
                                     prevPosition: int)
    requires s.num > 0 && Traced(start, st, before) && Invariant(st, prevPosition) && ValidOps(ops)
    ensures Traced(start, Run(s, l, st, ops), before + ops)
    decreases |ops|
  {
    hide Traced, Invariant, Step;
    if ops == [] {
      assert before + ops == before;
    } else {
      StepTraced(start, s, l, st, ops[0], before, prevPosition);
      StepKeeps(s, l, st, ops[0], prevPosition);
      RunTraced(start, s, l, Step(s, l, st, ops[0]), ops[1..], before + [ops[0]], prevPosition);
      assert before + [ops[0]] + ops[1..] == before + ops;
    }
  }

  /** On every run: each resting order and each party of a fill is an order log that was sent or
      a slice that was injected, on its side, with its time stamp, and an own one with the price
      the slice is recorded with; each fill has the earlier party's price; and the last price is
      that of the last fill, or the previous close before the first one. */
  lemma EveryOrderHasAnOrigin(s: Session, prevClose: int, prevPosition: int, ops: seq<Op>)
    requires s.num > 0 && ValidOps(ops)
    ensures var st := Run(s, InitialLimits(prevClose), Initial(prevClose, prevPosition), ops);
      && (forall o :: o in st.book.sells ==> Known(st.twaps, st.head, ops, Sale, PartyOf(o)))
      && (forall o :: o in st.book.buys ==> Known(st.twaps, st.head, ops, Buy, PartyOf(o)))
      && (forall f :: f in st.book.acct.tape ==>
            && Known(st.twaps, st.head, ops, Sale, f.sale) && Known(st.twaps, st.head, ops, Buy, f.buy)
            && f.volume > 0
            && f.price == if f.sale.timestamp > f.buy.timestamp then f.buy.price else f.sale.price)
      && var tape := st.book.acct.tape;
         st.book.acct.lastPrice == if tape == [] then prevClose else tape[|tape| - 1].price
  {
    hide Run, Invariant, Known;
    var st0 := Initial(prevClose, prevPosition);
    InvariantAtStart(prevClose, prevPosition);
    RunTraced(prevClose, s, InitialLimits(prevClose), st0, ops, [], prevPosition);
    assert [] + ops == ops;
  }
}
