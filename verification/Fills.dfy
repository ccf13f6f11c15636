/** The single fills of the contract engine on sorted sides, in their order and unmerged. When
    no two orders that rest on a side at the same time share a key, the heaps leave no choice
    and the engine makes exactly these fills. */
module Fills {
  import opened Orders
  import opened PriorityBook
  import opened Matching
  import opened ContractSpec
  import opened Ledger
  import opened Accounting

  /** The fills of an order that takes from the first k entries. */
  function TakenFills(inc: Order, s: seq<Order>, k: nat): seq<Fill>
    requires k <= |s|
    decreases k + if inc.volume > 0 then 1 else 0
  {
    if inc.volume <= 0 || k == 0 then []
    else
      var v := Min(inc.volume, s[0].volume);
      [FillWith(inc, s[0], v)] + TakenFills(Reduce(inc, v), Take(s, v), if v == s[0].volume then k - 1 else k)
  }

  /** The fills of the continuous matching. */
  function MatchFills(b: Book): seq<Fill>
    decreases |b.sells| + |b.buys|
  {
    if !Crossed(b) then []
    else
      var v := Min(b.sells[0].volume, b.buys[0].volume);
      [FillOf(b.sells[0], b.buys[0], v)] + MatchFills(TradeTops(b, v))
  }

  function PlaceFills(l: Limits, b: Book, o: Order): seq<Fill> {
    var opp := Opp(b, o.direction);
    if o.kind <= OUR_BEST_PRICE then
      match Admit(l, b, o)
      case Admitted(p) => MatchFills(AddOrder(b, o.(price := p)))
      case Rejected => MatchFills(b)
    else if o.kind == BEST_FIVE_PRICE_NO_LEFT then TakenFills(o, opp, Reach(opp, 0, -100))
    else if o.kind == IMMEDIATE_DEAL_NO_LEFT then TakenFills(o, opp, |opp|)
    else if o.kind == ALL_OR_NOTHING && Total(opp) >= o.volume then TakenFills(o, opp, |opp|)
    else []
  }

  /** The next TWAP order with its price. */
  function NextSlice(st: State): Order
    requires st.head < |st.twaps|
  {
    st.twaps[st.head].(price := BasePrice(st.book, st.twaps[st.head].direction))
  }

  function InjectOneFills(st: State): seq<Fill>
    requires st.head < |st.twaps|
  {
    MatchFills(if NextSlice(st).volume != 0 then AddOrder(st.book, NextSlice(st)) else st.book)
  }

  function InjectFills(st: State, t: int): seq<Fill>
    decreases |st.twaps| - st.head
  {
    if st.head < |st.twaps| && st.twaps[st.head].timestamp < t
    then InjectOneFills(st) + InjectFills(InjectOne(st), t)
    else []
  }

  function LogFills(l: Limits, st: State, o: Order): seq<Fill> {
    InjectFills(st, o.timestamp) + PlaceFills(l, Inject(st, o.timestamp).book, o)
  }

  function StepFills(l: Limits, st: State, op: Op): seq<Fill> {
    match op
    case AlphaOp(_) => []
    case LogOp(o) => LogFills(l, st, o)
    case CompleteOp => InjectFills(st, MAX_INT)
  }

  function RunFills(s: Session, l: Limits, st: State, ops: seq<Op>): seq<Fill>
    requires s.num > 0
    decreases |ops|
  {
    if ops == [] then [] else StepFills(l, st, ops[0]) + RunFills(s, l, Step(s, l, st, ops[0]), ops[1..])
  }

  // --------------------------------------------------------------- no ties

  /** No entry of s has o's key. */
  ghost predicate NewKey(s: seq<Order>, o: Order) {
    forall x :: x in s ==> !SameKey(x, o)
  }

  /** If the order comes to rest its key is new on its side. */
  ghost predicate FreshPlace(l: Limits, b: Book, o: Order) {
    o.kind <= OUR_BEST_PRICE && Admit(l, b, o).Admitted? ==>
      NewKey(Own(b, o.direction), o.(price := Admit(l, b, o).price))
  }

  ghost predicate FreshSlice(st: State)
    requires st.head < |st.twaps|
  {
    NextSlice(st).volume != 0 ==> NewKey(Own(st.book, NextSlice(st).direction), NextSlice(st))
  }

  ghost predicate FreshInject(st: State, t: int)
    decreases |st.twaps| - st.head
  {
    st.head < |st.twaps| && st.twaps[st.head].timestamp < t ==> FreshSlice(st) && FreshInject(InjectOne(st), t)
  }

  ghost predicate FreshLog(l: Limits, st: State, o: Order) {
    FreshInject(st, o.timestamp) && FreshPlace(l, Inject(st, o.timestamp).book, o)
  }

  ghost predicate FreshStep(l: Limits, st: State, op: Op) {
    && (op.LogOp? ==> FreshLog(l, st, op.log))
    && (op.CompleteOp? ==> FreshInject(st, MAX_INT))
  }

  /** No order of a run comes to rest beside one with its own key. */
  ghost predicate FreshRun(s: Session, l: Limits, st: State, ops: seq<Op>)
    requires s.num > 0
    decreases |ops|
  {
    ops != [] ==> FreshStep(l, st, ops[0]) && FreshRun(s, l, Step(s, l, st, ops[0]), ops[1..])
  }

  /** What the engine has come to after the events `ops`: the state of the run and, if no two
      orders ever tie, exactly the single fills of the run. */
  ghost predicate RunsTo(s: Session, l: Limits, start: State, ops: seq<Op>, st: State, distinct: bool, fills: seq<Fill>)
    requires s.num > 0
  {
    && st == Run(s, l, start, ops)
    && (FreshRun(s, l, start, ops) ==> distinct && fills == RunFills(s, l, start, ops))
  }

  lemma RunsToStart(s: Session, l: Limits, start: State)
    requires s.num > 0
    ensures RunsTo(s, l, start, [], start, true, [])
  {
  }

  lemma RunsToNext(s: Session, l: Limits, start: State, ops: seq<Op>, op: Op, st: State, distinct: bool,
                   fills: seq<Fill>, st': State, distinct': bool, fills': seq<Fill>)
    requires s.num > 0 && RunsTo(s, l, start, ops, st, distinct, fills) && st' == Step(s, l, st, op)
    requires distinct && FreshStep(l, st, op) ==> distinct' && fills' == fills + StepFills(l, st, op)
    ensures RunsTo(s, l, start, ops + [op], st', distinct', fills')
  {
    hide Step, StepFills, FreshStep;
    RunSnoc(s, l, start, ops, op);
    FillsSnoc(s, l, start, ops, op);
  }

  lemma {:induction false} FillsSnoc(s: Session, l: Limits, st: State, ops: seq<Op>, op: Op)
    requires s.num > 0
    ensures var end := Run(s, l, st, ops);
      && RunFills(s, l, st, ops + [op]) == RunFills(s, l, st, ops) + StepFills(l, end, op)
      && (FreshRun(s, l, st, ops + [op]) <==> FreshRun(s, l, st, ops) && FreshStep(l, end, op))
    decreases |ops|
  {
    hide Step, StepFills, FreshStep;
    var all := ops + [op];
    if ops == [] {
      assert all[0] == op && all[1..] == [];
      assert StepFills(l, st, op) + [] == [] + StepFills(l, st, op);
    } else {
      var next := Step(s, l, st, ops[0]);
      assert all[0] == ops[0] && all[1..] == ops[1..] + [op];
      FillsSnoc(s, l, next, ops[1..], op);
      FillsConcat(StepFills(l, st, ops[0]), RunFills(s, l, next, ops[1..]),
                  StepFills(l, Run(s, l, next, ops[1..]), op));
    }
  }

  // ------------------------------------------------------------- one step each

  /** No slice is due before time t. */
  predicate NothingDue(st: State, t: int) {
    st.head >= |st.twaps| || st.twaps[st.head].timestamp >= t
  }

  lemma NothingInjected(st: State, t: int)
    requires NothingDue(st, t)
    ensures Inject(st, t) == st && InjectFills(st, t) == [] && FreshInject(st, t)
  {
  }

  /** An order log is handled in two parts. */
  lemma LogParts(l: Limits, st: State, o: Order, before: seq<Fill>)
    ensures var st', first := Inject(st, o.timestamp), InjectFills(st, o.timestamp);
      && InsertOrderLog(l, st, o) == st'.(book := Place(l, st'.book, o))
      && (FreshLog(l, st, o) <==> FreshInject(st, o.timestamp) && FreshPlace(l, st'.book, o))
      && before + LogFills(l, st, o) == before + first + PlaceFills(l, st'.book, o)
      && before + [] == before
  {
    hide Inject, InjectFills, FreshInject, FreshPlace, Place, PlaceFills;
  }

  lemma MatchFillsNext(b: Book)
    requires Crossed(b)
    ensures var v := Min(b.sells[0].volume, b.buys[0].volume);
      MatchFills(b) == [FillOf(b.sells[0], b.buys[0], v)] + MatchFills(TradeTops(b, v))
  {
  }

  lemma MatchFillsDone(b: Book)
    requires !Crossed(b)
    ensures MatchFills(b) == []
  {
  }

  lemma TakenFillsDone(inc: Order, s: seq<Order>, k: nat)
    requires k <= |s| && (inc.volume <= 0 || k == 0)
    ensures TakenFills(inc, s, k) == []
  {
  }

  /** Taking on from here ends in `end`. */
  ghost predicate EndsIn(inc: Order, s: seq<Order>, a: Account, k: nat, end: Swept) {
    k <= |s| && SweepWithin(inc, s, a, k) == end
  }

  /** The fills so far and those still to come are `all`. */
  ghost predicate FillsUpTo(fills: seq<Fill>, inc: Order, s: seq<Order>, k: nat, all: seq<Fill>) {
    k <= |s| && fills + TakenFills(inc, s, k) == all
  }

  lemma TakingStarts(inc: Order, s: seq<Order>, a: Account, k: nat, fills: seq<Fill>)
    requires k <= |s|
    ensures EndsIn(inc, s, a, k, SweepWithin(inc, s, a, k))
    ensures FillsUpTo(fills, inc, s, k, fills + TakenFills(inc, s, k))
  {
  }

  /** Trading v units with the first entry; all it has or all that is asked for, for the fills. */
  lemma TakingStep(inc: Order, s: seq<Order>, a: Account, k: nat, v: int, end: Swept, fills: seq<Fill>, all: seq<Fill>)
    requires EndsIn(inc, s, a, k, end) && k > 0 && inc.volume > 0 && 0 < v <= Min(inc.volume, s[0].volume)
    ensures var inc', s', a', k' := Reduce(inc, v), Take(s, v), TradeWith(a, inc, s[0], v),
                                    if v == s[0].volume then k - 1 else k;
      && EndsIn(inc', s', a', k', end) && (k == |s| ==> k' == |s'|)
      && (FillsUpTo(fills, inc, s, k, all) && v == Min(inc.volume, s[0].volume) ==>
            FillsUpTo(fills + [FillWith(inc, s[0], v)], inc', s', k', all))
  {
    hide SweepWithin, TradeWith, FillWith;
    SweepWithinPart(inc, s, a, k, v);
    FillsAssoc(fills, FillWith(inc, s[0], v),
               TakenFills(Reduce(inc, v), Take(s, v), if v == s[0].volume then k - 1 else k));
  }

  /** The same with the level counter at n, the last price p being that of the first entry. */
  lemma LevelStep(inc: Order, s: seq<Order>, a: Account, n: int, p: int, v: int, end: Swept, fills: seq<Fill>,
                  all: seq<Fill>)
    requires s != [] && s[0].price == p && inc.volume > 0 && 0 < v <= Min(inc.volume, s[0].volume)
    requires EndsIn(inc, s, a, Reach(s, n, p), end)
    ensures var inc', s', a' := Reduce(inc, v), Take(s, v), TradeWith(a, inc, s[0], v);
      && EndsIn(inc', s', a', Reach(s', n, p), end)
      && (FillsUpTo(fills, inc, s, Reach(s, n, p), all) && v == Min(inc.volume, s[0].volume) ==>
            FillsUpTo(fills + [FillWith(inc, s[0], v)], inc', s', Reach(s', n, p), all))
  {
    hide EndsIn, FillsUpTo, Reach, Take, TradeWith, FillWith;
    ReachTake(s, n, v);
    TakingStep(inc, s, a, Reach(s, n, p), v, end, fills, all);
  }

  lemma TakingEnds(inc: Order, s: seq<Order>, a: Account, k: nat, end: Swept, fills: seq<Fill>, all: seq<Fill>)
    requires EndsIn(inc, s, a, k, end) && (inc.volume <= 0 || k == 0)
    ensures end == Swept(inc, s, a) && (FillsUpTo(fills, inc, s, k, all) ==> fills == all)
  {
    SweepWithinDone(inc, s, a, k);
  }

  // ---------------------------------------------- the tape is made of these fills

  lemma TapeNext(a: Account, before: seq<Fill>, sale: Order, buy: Order, v: int)
    requires a.tape == Tape(before)
    ensures Trade(a, sale, buy, v).tape == Tape(before + [FillOf(sale, buy, v)])
  {
    hide Push;
    assert (before + [FillOf(sale, buy, v)])[..|before|] == before;
  }

  lemma FillsAssoc(before: seq<Fill>, f: Fill, rest: seq<Fill>)
    ensures before + ([f] + rest) == before + [f] + rest
  {
  }

  lemma FillsConcat(a: seq<Fill>, b: seq<Fill>, c: seq<Fill>)
    ensures a + (b + c) == a + b + c
  {
  }

  lemma {:induction false} TapeOfMatch(b: Book, before: seq<Fill>)
    requires b.acct.tape == Tape(before)
    ensures Match(b).acct.tape == Tape(before + MatchFills(b))
    decreases |b.sells| + |b.buys|
  {
    hide Tape, Trade, Match, MatchFills;
    if Crossed(b) {
      var v := Min(b.sells[0].volume, b.buys[0].volume);
      var f, next := FillOf(b.sells[0], b.buys[0], v), TradeTops(b, v);
      MatchUnfold(b);
      MatchFillsNext(b);
      TapeNext(b.acct, before, b.sells[0], b.buys[0], v);
      TapeOfMatch(next, before + [f]);
      FillsAssoc(before, f, MatchFills(next));
    } else {
      NotCrossedStays(b);
      MatchFillsDone(b);
      assert before + [] == before;
    }
  }

  lemma {:induction false} TapeOfTaken(inc: Order, s: seq<Order>, a: Account, k: nat, before: seq<Fill>)
    requires k <= |s| && a.tape == Tape(before)
    requires forall i :: 0 <= i < |s| ==> s[i].volume > 0
    ensures SweepWithin(inc, s, a, k).acct.tape == Tape(before + TakenFills(inc, s, k))
    decreases k + if inc.volume > 0 then 1 else 0
  {
    hide Tape, Trade, SweepWithin;
    if inc.volume <= 0 || k == 0 {
      SweepWithinDone(inc, s, a, k);
      assert before + [] == before;
    } else {
      var v := Min(inc.volume, s[0].volume);
      var f, inc', s', k' := FillWith(inc, s[0], v), Reduce(inc, v), Take(s, v), if v == s[0].volume then k - 1 else k;
      SweepWithinPart(inc, s, a, k, v);
      if inc.direction == Sale {
        TapeNext(a, before, inc, s[0], v);
      } else {
        TapeNext(a, before, s[0], inc, v);
      }
      TapeOfTaken(inc', s', TradeWith(a, inc, s[0], v), k', before + [f]);
      FillsAssoc(before, f, TakenFills(inc', s', k'));
    }
  }

  lemma TapeOfPlace(l: Limits, b: Book, o: Order, before: seq<Fill>)
    requires GoodBook(b) && b.acct.tape == Tape(before)
    ensures Place(l, b, o).acct.tape == Tape(before + PlaceFills(l, b, o))
  {
    hide Tape, Match, MatchFills, SweepWithin, TakenFills, Reach, Add, Admit;
    var opp := Opp(b, o.direction);
    if o.kind <= OUR_BEST_PRICE {
      match Admit(l, b, o)
      case Admitted(p) => TapeOfMatch(AddOrder(b, o.(price := p)), before);
      case Rejected => TapeOfMatch(b, before);
    } else {
      TapeOfTaken(o, opp, b.acct, Reach(opp, 0, -100), before);
      TapeOfTaken(o, opp, b.acct, |opp|, before);
      assert before + [] == before;
    }
  }

  lemma {:induction false} TapeOfInject(st: State, t: int, before: seq<Fill>)
    requires st.book.acct.tape == Tape(before)
    ensures Inject(st, t).book.acct.tape == Tape(before + InjectFills(st, t))
    decreases |st.twaps| - st.head
  {
    hide Tape, Match, MatchFills, Add;
    if st.head < |st.twaps| && st.twaps[st.head].timestamp < t {
      var o, one := NextSlice(st), InjectOneFills(st);
      TapeOfMatch(if o.volume != 0 then AddOrder(st.book, o) else st.book, before);
      TapeOfInject(InjectOne(st), t, before + one);
      FillsConcat(before, one, InjectFills(InjectOne(st), t));
    } else {
      assert before + [] == before;
    }
  }

  lemma TapeOfStep(s: Session, l: Limits, st: State, op: Op, before: seq<Fill>, prevPosition: int)
    requires s.num > 0 && Invariant(st, prevPosition) && st.book.acct.tape == Tape(before)
    ensures Step(s, l, st, op).book.acct.tape == Tape(before + StepFills(l, st, op))
  {
    hide Tape, Invariant, Place, PlaceFills;
    match op
    case AlphaOp(_) => assert before + [] == before;
    case CompleteOp => TapeOfInject(st, MAX_INT, before);
    case LogOp(o) =>
      var st', first := Inject(st, o.timestamp), InjectFills(st, o.timestamp);
      TapeOfInject(st, o.timestamp, before);
      InjectKeeps(st, o.timestamp, prevPosition);
      GoodState(st', prevPosition);
      TapeOfPlace(l, st'.book, o, before + first);
      FillsConcat(before, first, PlaceFills(l, st'.book, o));
  }

  lemma {:induction false} TapeOfRun(s: Session, l: Limits, st: State, ops: seq<Op>, before: seq<Fill>,
                                     prevPosition: int)
    requires s.num > 0 && Invariant(st, prevPosition) && ValidOps(ops) && st.book.acct.tape == Tape(before)
    ensures Run(s, l, st, ops).book.acct.tape == Tape(before + RunFills(s, l, st, ops))
    decreases |ops|
  {
    if ops == [] {
      assert before + [] == before;
    } else {
      hide Tape, Invariant, Step, StepFills;
      var one := StepFills(l, st, ops[0]);
      TapeOfStep(s, l, st, ops[0], before, prevPosition);
      StepKeeps(s, l, st, ops[0], prevPosition);
      TapeOfRun(s, l, Step(s, l, st, ops[0]), ops[1..], before + one, prevPosition);
      FillsConcat(before, one, RunFills(s, l, Step(s, l, st, ops[0]), ops[1..]));
    }
  }

  /** From the start of the day the tape of a run is that of its single fills. */
  lemma TapeOfDay(s: Session, l: Limits, prevClose: int, prevPosition: int, ops: seq<Op>)
    requires s.num > 0 && ValidOps(ops)
    ensures var st := Initial(prevClose, prevPosition);
      Run(s, l, st, ops).book.acct.tape == Tape(RunFills(s, l, st, ops))
  {
    hide Run, RunFills, Invariant;
    var st := Initial(prevClose, prevPosition);
    InvariantAtStart(prevClose, prevPosition);
    TapeOfRun(s, l, st, ops, [], prevPosition);
    assert [] + RunFills(s, l, st, ops) == RunFills(s, l, st, ops);
  }
}
