/** What every operation of the contract engine keeps, from the first order of the day on. */
module Accounting {
  import opened Modular
  import opened Orders
  import opened PriorityBook
  import opened Matching
  import opened ContractSpec
  import opened Ledger

  // ------------------------------------------------------------------- sums

  function OwnPart(o: Order): int {
    if o.kind == MY_CONTRACT then o.volume else 0
  }

  /** Volume of our own resting orders on a side. */
  function OwnVolume(s: seq<Order>): int {
    if s == [] then 0 else OwnPart(s[0]) + OwnVolume(s[1..])
  }

  function Signed(o: Order): int {
    if o.direction == Buy then o.volume else -o.volume
  }

  /** Signed volume of a list of TWAP orders. */
  function SignedSum(s: seq<Order>): int {
    if s == [] then 0 else Signed(s[0]) + SignedSum(s[1..])
  }

  predicate BothOwn(f: Fill) {
    f.sale.kind == MY_CONTRACT && f.buy.kind == MY_CONTRACT
  }

  /** Volume traded with own orders on both sides. */
  function SelfTraded(tape: seq<Fill>): int {
    if tape == [] then 0
    else SelfTraded(tape[..|tape| - 1]) + if BothOwn(tape[|tape| - 1]) then tape[|tape| - 1].volume else 0
  }

  lemma {:induction false} OwnVolumeConcat(s: seq<Order>, t: seq<Order>)
    ensures OwnVolume(s + t) == OwnVolume(s) + OwnVolume(t)
  {
    if s == [] {
      assert s + t == t;
    } else {
      assert (s + t)[1..] == s[1..] + t;
      OwnVolumeConcat(s[1..], t);
    }
  }

  lemma {:induction false} SignedSumConcat(s: seq<Order>, t: seq<Order>)
    ensures SignedSum(s + t) == SignedSum(s) + SignedSum(t)
  {
    if s == [] {
      assert s + t == t;
    } else {
      assert (s + t)[1..] == s[1..] + t;
      SignedSumConcat(s[1..], t);
    }
  }

  lemma {:induction false} OwnVolumeAdd(d: Direction, s: seq<Order>, o: Order)
    ensures OwnVolume(Add(d, s, o)) == OwnVolume(s) + OwnPart(o)
  {
    if s != [] && Before(d, s[0], o) {
      OwnVolumeAdd(d, s[1..], o);
    }
  }

  lemma OwnVolumeTake(s: seq<Order>, v: int)
    requires s != []
    ensures OwnVolume(Take(s, v)) == OwnVolume(s) - if s[0].kind == MY_CONTRACT then v else 0
  {
    assert v != s[0].volume ==> Take(s, v)[1..] == s[1..];
  }

  lemma PushSelfTraded(tape: seq<Fill>, f: Fill)
    ensures SelfTraded(Push(tape, f)) == SelfTraded(tape) + if BothOwn(f) then f.volume else 0
  {
    var t, n := Push(tape, f), |tape|;
    if n > 0 && SamePrint(tape[n - 1], f) {
      assert t[..n - 1] == tape[..n - 1];
    } else {
      assert t[..n] == tape;
    }
  }

  // ------------------------------------------------------- trades move volume

  /** Our position, our resting orders and what we traded with ourselves. */
  function Balance(b: Book): int {
    b.acct.position + OwnVolume(b.buys) - OwnVolume(b.sells) + SelfTraded(b.acct.tape)
  }

  /** A trade between two resting sides moves volume but loses none. */
  lemma TradeKeepsBalance(b: Book, v: int, prevPosition: int)
    requires Crossed(b) && Booked(b.acct, prevPosition)
    ensures Balance(TradeTops(b, v)) == Balance(b) && Booked(TradeTops(b, v).acct, prevPosition)
  {
    OwnVolumeTake(b.sells, v);
    OwnVolumeTake(b.buys, v);
    PushSelfTraded(b.acct.tape, FillOf(b.sells[0], b.buys[0], v));
    PushSums(b.acct.tape, FillOf(b.sells[0], b.buys[0], v));
  }

  lemma {:induction false} MatchKeepsBalance(b: Book, prevPosition: int)
    requires Booked(b.acct, prevPosition)
    ensures Balance(Match(b)) == Balance(b) && Booked(Match(b).acct, prevPosition)
    decreases |b.sells| + |b.buys|
  {
    if Crossed(b) {
      var v := Min(b.sells[0].volume, b.buys[0].volume);
      TradeKeepsBalance(b, v, prevPosition);
      MatchKeepsBalance(TradeTops(b, v), prevPosition);
    }
  }

  /** An order that is not ours sweeps a side: what our resting orders lose, the position gains. */
  lemma {:induction false} SweepKeepsBalance(inc: Order, rest: seq<Order>, a: Account, prevPosition: int)
    requires inc.kind != MY_CONTRACT && Booked(a, prevPosition)
    ensures var r, sign := Sweep(false, inc, rest, a), if inc.direction == Sale then 1 else -1;
      && r.acct.position + sign * OwnVolume(r.rest) + SelfTraded(r.acct.tape)
         == a.position + sign * OwnVolume(rest) + SelfTraded(a.tape)
      && Booked(r.acct, prevPosition)
    decreases |rest| + if inc.volume > 0 then 1 else 0
  {
    if Fit(false, inc, rest) {
      var v := Min(inc.volume, rest[0].volume);
      var f := if inc.direction == Sale then FillOf(inc, rest[0], v) else FillOf(rest[0], inc, v);
      OwnVolumeTake(rest, v);
      PushSelfTraded(a.tape, f);
      PushSums(a.tape, f);
      SweepKeepsBalance(Reduce(inc, v), Take(rest, v), TradeWith(a, inc, rest[0], v), prevPosition);
    }
  }

  // ---------------------------------------------------------------- invariant

  ghost predicate GoodBook(b: Book) {
    WellFormed(b) && !Crossed(b)
  }

  ghost predicate TwapOrders(s: seq<Order>) {
    forall i :: 0 <= i < |s| ==> s[i].kind == MY_CONTRACT && s[i].volume >= 0
  }

  /** Between two operations the sides are in strict price-time order and do not cross, every
      unit of the target is in the position, in a resting own order, in a slice that is still
      to come, or was traded with ourselves, and the position is what the tape says. */
  ghost predicate Invariant(st: State, prevPosition: int) {
    && GoodBook(st.book)
    && st.head <= |st.twaps| && TwapOrders(st.twaps)
    && Balance(st.book) + SignedSum(st.twaps[st.head..]) == st.target
    && Booked(st.book.acct, prevPosition)
    && prevPosition + SignedSum(st.twaps) == st.target
  }

  lemma GoodState(st: State, prevPosition: int)
    requires Invariant(st, prevPosition)
    ensures GoodBook(st.book)
  {
  }

  lemma RestingKeeps(b: Book, o: Order, prevPosition: int)
    requires GoodBook(b) && CanRest(o.direction, o) && Booked(b.acct, prevPosition)
    ensures var c := Match(AddOrder(b, o));
      && GoodBook(c) && Booked(c.acct, prevPosition)
      && Balance(c) == Balance(b) + if o.kind == MY_CONTRACT then Signed(o) else 0
  {
    hide Match, Sweep, Add, Balance, Booked;
    MatchIsSweep(b, o);
    assert Balance(AddOrder(b, o)) == Balance(b) + if o.kind == MY_CONTRACT then Signed(o) else 0 by {
      BalanceAdd(b, o);
    }
    assert AddOrder(b, o).acct == b.acct;
    MatchKeepsBalance(AddOrder(b, o), prevPosition);
  }

  lemma BalanceAdd(b: Book, o: Order)
    ensures Balance(AddOrder(b, o)) == Balance(b) + if o.kind == MY_CONTRACT then Signed(o) else 0
  {
    OwnVolumeAdd(o.direction, Own(b, o.direction), o);
  }

  lemma TakingKeeps(b: Book, o: Order, k: nat, prevPosition: int)
    requires GoodBook(b) && o.kind != MY_CONTRACT && k <= |Opp(b, o.direction)| && Booked(b.acct, prevPosition)
    ensures var c := TakeOnly(b, o, k);
      && GoodBook(c) && Booked(c.acct, prevPosition) && Balance(c) == Balance(b)
  {
    hide Sweep;
    var s := Opp(b, o.direction);
    assert s[..k] + s[k..] == s;
    SweepKeepsOrder(o, s[..k], s[k..], b.acct);
    SweepKeepsBalance(o, s[..k], b.acct, prevPosition);
    OwnVolumeConcat(s[..k], s[k..]);
    OwnVolumeConcat(Sweep(false, o, s[..k], b.acct).rest, s[k..]);
  }

  lemma PlaceKeeps(l: Limits, b: Book, o: Order, prevPosition: int)
    requires GoodBook(b) && o.volume > 0 && Booked(b.acct, prevPosition)
    ensures var c := Place(l, b, o);
      && GoodBook(c) && Booked(c.acct, prevPosition) && Balance(c) == Balance(b)
  {
    hide Balance, Booked, Sweep, SweepWithin, TakeOnly, AddOrder;
    if o.kind <= OUR_BEST_PRICE {
      match Admit(l, b, o)
      case Admitted(p) => RestingKeeps(b, o.(price := p), prevPosition);
      case Rejected =>
    } else if o.kind == BEST_FIVE_PRICE_NO_LEFT {
      TakingKeeps(b, o, Reach(Opp(b, o.direction), 0, -100), prevPosition);
    } else if o.kind <= ALL_OR_NOTHING {
      TakingKeeps(b, o, |Opp(b, o.direction)|, prevPosition);
    }
  }

  lemma InjectOneKeeps(st: State, prevPosition: int)
    requires Invariant(st, prevPosition) && st.head < |st.twaps|
    ensures Invariant(InjectOne(st), prevPosition)
  {
    hide Balance, Booked, Match, AddOrder, SignedSum;
    var i := st.head;
    var o := st.twaps[i].(price := BasePrice(st.book, st.twaps[i].direction));
    var twaps := st.twaps[i := o];
    if o.volume != 0 {
      RestingKeeps(st.book, o, prevPosition);
    } else {
      NotCrossedStays(st.book);
    }
    Repriced(st.twaps, i, o);
  }

  /** Pricing a slice changes no sum. */
  lemma Repriced(s: seq<Order>, i: nat, o: Order)
    requires i < |s| && Signed(o) == Signed(s[i])
    ensures SignedSum(s[i := o]) == SignedSum(s)
    ensures SignedSum(s[i..]) == Signed(o) + SignedSum(s[i := o][i + 1..])
  {
    assert s[i..][1..] == s[i + 1..] && s[i := o][i + 1..] == s[i + 1..];
    assert s == s[..i] + s[i..] && s[i := o] == s[..i] + s[i := o][i..];
    assert s[i := o][i..][1..] == s[i + 1..];
    SignedSumConcat(s[..i], s[i..]);
    SignedSumConcat(s[..i], s[i := o][i..]);
  }

  lemma {:induction false} InjectKeeps(st: State, t: int, prevPosition: int)
    requires Invariant(st, prevPosition)
    ensures Invariant(Inject(st, t), prevPosition)
    decreases |st.twaps| - st.head
  {
    hide Invariant, InjectOne;
    if st.head < |st.twaps| && st.twaps[st.head].timestamp < t {
      InjectOneKeeps(st, prevPosition);
      InjectOneAdvances(st);
      InjectKeeps(InjectOne(st), t, prevPosition);
    }
  }

  lemma InjectOneAdvances(st: State)
    requires st.head < |st.twaps|
    ensures InjectOne(st).head == st.head + 1 && |InjectOne(st).twaps| == |st.twaps|
  {
  }

  lemma {:induction false} SlicesSum(s: Session, alpha: Alpha, diff: int, k: nat)
    requires s.num > 0
    ensures SignedSum(Slices(s, alpha, diff, k)) == (if diff > 0 then 1 else -1) * (Abs(diff) * k / s.num)
    ensures TwapOrders(Slices(s, alpha, diff, k))
  {
    if k > 0 {
      SlicesSum(s, alpha, diff, k - 1);
      var last := SliceOf(s, alpha, diff, k - 1);
      SliceVolumeNonNegative(Abs(diff), s.num, k - 1);
      assert Slices(s, alpha, diff, k) == Slices(s, alpha, diff, k - 1) + [last];
      SignedSumConcat(Slices(s, alpha, diff, k - 1), [last]);
    }
  }

  /** The slices of an alpha add up to the change of the target. */
  lemma AllSlicesSum(s: Session, alpha: Alpha, diff: int)
    requires s.num > 0
    ensures SignedSum(Slices(s, alpha, diff, s.num)) == diff
    ensures TwapOrders(Slices(s, alpha, diff, s.num))
  {
    SlicesSum(s, alpha, diff, s.num);
    DivCancels(Abs(diff), s.num);
  }

  lemma AlphaKeeps(s: Session, st: State, alpha: Alpha, prevPosition: int)
    requires s.num > 0 && Invariant(st, prevPosition)
    ensures Invariant(InsertAlpha(s, st, alpha), prevPosition)
  {
    hide Slices, SignedSum, Balance, Booked, GoodBook;
    var diff := alpha.targetVolume - st.target;
    if diff != 0 {
      var added := Slices(s, alpha, diff, s.num);
      AllSlicesSum(s, alpha, diff);
      SignedSumConcat(st.twaps, added);
      assert (st.twaps + added)[st.head..] == st.twaps[st.head..] + added;
      SignedSumConcat(st.twaps[st.head..], added);
    }
  }

  lemma StepKeeps(s: Session, l: Limits, st: State, op: Op, prevPosition: int)
    requires s.num > 0 && Invariant(st, prevPosition) && (op.LogOp? ==> op.log.volume > 0)
    ensures Invariant(Step(s, l, st, op), prevPosition)
  {
    hide Place, InjectOne, Balance, Booked;
    match op
    case AlphaOp(alpha) => AlphaKeeps(s, st, alpha, prevPosition);
    case CompleteOp => InjectKeeps(st, MAX_INT, prevPosition);
    case LogOp(log) =>
      InjectKeeps(st, log.timestamp, prevPosition);
      PlaceKeeps(l, Inject(st, log.timestamp).book, log, prevPosition);
  }

  lemma {:induction false} RunKeeps(s: Session, l: Limits, st: State, ops: seq<Op>, prevPosition: int)
    requires s.num > 0 && Invariant(st, prevPosition) && ValidOps(ops)
    ensures Invariant(Run(s, l, st, ops), prevPosition)
    decreases |ops|
  {
    if ops != [] {
      hide Step, Invariant;
      StepKeeps(s, l, st, ops[0], prevPosition);
      RunKeeps(s, l, Step(s, l, st, ops[0]), ops[1..], prevPosition);
    }
  }

  lemma InvariantAtStart(prevClose: int, prevPosition: int)
    ensures Invariant(Initial(prevClose, prevPosition), prevPosition)
  {
  }

  /** From the start of the day, in every order of alphas, order logs and completions. */
  lemma EveryReachableState(s: Session, prevClose: int, prevPosition: int, ops: seq<Op>)
    requires s.num > 0 && ValidOps(ops)
    ensures var st := Run(s, InitialLimits(prevClose), Initial(prevClose, prevPosition), ops);
      && (st.book.sells == [] || st.book.buys == [] || st.book.sells[0].price > st.book.buys[0].price)
      && st.book.acct.position + OwnVolume(st.book.buys) - OwnVolume(st.book.sells)
         + SignedSum(st.twaps[Min(st.head, |st.twaps|)..])
         == st.target - SelfTraded(st.book.acct.tape)
      && st.book.acct.position == prevPosition + Bought(st.book.acct.tape)
      && prevPosition + SignedSum(st.twaps) == st.target
  {
    InvariantAtStart(prevClose, prevPosition);
    RunKeeps(s, InitialLimits(prevClose), Initial(prevClose, prevPosition), ops, prevPosition);
  }
}
