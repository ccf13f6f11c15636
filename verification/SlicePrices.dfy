/** The price that every TWAP order is recorded with is the quote it was injected at. */
module SlicePrices {
  import opened Orders
  import opened PriorityBook
  import opened Matching
  import opened ContractSpec
  import opened Accounting
  import opened OrderTypes
  import opened TwapSchedule

  /** The slices injected on the way to time t are recorded in `final` at the quote of the book
      just before their injection, also those without volume. */
  ghost predicate QuotedInject(st: State, t: int, final: seq<Order>)
    decreases |st.twaps| - st.head
  {
    st.head < |st.twaps| && st.twaps[st.head].timestamp < t ==>
      && st.head < |final|
      && QuoteOf(multiset(st.book.sells), multiset(st.book.buys), st.book.acct.lastPrice,
                 st.twaps[st.head].direction, final[st.head].price)
      && QuotedInject(InjectOne(st), t, final)
  }

  ghost predicate QuotedRun(s: Session, l: Limits, st: State, ops: seq<Op>, final: seq<Order>)
    requires s.num > 0
    decreases |ops|
  {
    ops != [] ==>
      && (ops[0].LogOp? ==> QuotedInject(st, ops[0].log.timestamp, final))
      && (ops[0].CompleteOp? ==> QuotedInject(st, MAX_INT, final))
      && QuotedRun(s, l, Step(s, l, st, ops[0]), ops[1..], final)
  }

  /** The slices injected so far are recorded in `final` as they are. */
  ghost predicate Keeps(final: seq<Order>, st: State) {
    && st.head <= |final| && st.head <= |st.twaps|
    && forall i :: 0 <= i < st.head ==> final[i] == st.twaps[i]
  }

  lemma {:induction false} InjectIsQuoted(st: State, t: int, final: seq<Order>, prevPosition: int)
    requires Invariant(st, prevPosition)
    requires Keeps(final, Inject(st, t))
    ensures QuotedInject(st, t, final)
    decreases |st.twaps| - st.head
  {
    if st.head < |st.twaps| && st.twaps[st.head].timestamp < t {
      var st' := InjectOne(st);
      InjectOneKeeps(st, prevPosition);
      GoodState(st, prevPosition);
      InjectStays(st', t);
      BaseIsQuote(st.book, st.twaps[st.head].direction);
      hide Invariant, Match, AddOrder, QuoteOf, BasePrice;
      assert final[st.head].price == BasePrice(st.book, st.twaps[st.head].direction);
      InjectIsQuoted(st', t, final, prevPosition);
    }
  }

  lemma {:induction false} RunIsQuoted(s: Session, l: Limits, st: State, ops: seq<Op>, final: seq<Order>,
                                       prevPosition: int)
    requires s.num > 0 && Invariant(st, prevPosition) && ValidOps(ops)
    requires Keeps(final, Run(s, l, st, ops))
    ensures QuotedRun(s, l, st, ops, final)
    decreases |ops|
  {
    if ops != [] {
      hide Invariant, Inject, QuotedInject, Place;
      var st', rest := Step(s, l, st, ops[0]), ops[1..];
      StepKeeps(s, l, st, ops[0], prevPosition);
      RecordedSlicesStay(s, l, st', rest);
      HeadIn(st', prevPosition);
      match ops[0] {
        case AlphaOp(_) =>
        case CompleteOp => InjectIsQuoted(st, MAX_INT, final, prevPosition);
        case LogOp(o) => InjectIsQuoted(st, o.timestamp, final, prevPosition);
      }
      RunIsQuoted(s, l, st', rest, final, prevPosition);
    }
  }

  lemma HeadIn(st: State, prevPosition: int)
    requires Invariant(st, prevPosition)
    ensures st.head <= |st.twaps|
  {
  }

  /** On every run each injected slice keeps as its price the best opposite price, else the best
      own one, else the last price, of the book just before its injection. */
  lemma SlicesAreQuoted(s: Session, prevClose: int, prevPosition: int, ops: seq<Op>)
    requires s.num > 0 && ValidOps(ops)
    ensures var l, st := InitialLimits(prevClose), Initial(prevClose, prevPosition);
      QuotedRun(s, l, st, ops, Run(s, l, st, ops).twaps)
  {
    hide Run, QuotedRun, Invariant;
    var l, st := InitialLimits(prevClose), Initial(prevClose, prevPosition);
    InvariantAtStart(prevClose, prevPosition);
    RunKeeps(s, l, st, ops, prevPosition);
    HeadIn(Run(s, l, st, ops), prevPosition);
    RunIsQuoted(s, l, st, ops, Run(s, l, st, ops).twaps, prevPosition);
  }
}
