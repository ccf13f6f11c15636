/** The contract engine on priority-sorted sides: one function for every operation. */
module ContractSpec {
  import opened Modular
  import opened Orders
  import opened PriorityBook
  import opened Matching

  datatype Session = Session(num: nat, length: int)

  datatype Limits = Limits(up: int, down: int)

  datatype Alpha = Alpha(timestamp: int, targetVolume: int)

  /** The recorded TWAP orders, how many of them have been injected, and the last target. */
  datatype State = State(book: Book, twaps: seq<Order>, head: nat, target: int)

  function InitialLimits(prevClose: int): Limits {
    Limits(Round2(prevClose * 110), Round2(prevClose * 90))
  }

  function Initial(prevClose: int, prevPosition: int): State {
    State(Book([], [], Account(prevPosition, prevClose, [])), [], 0, prevPosition)
  }

  // -------------------------------------------------------------------- TWAP

  /** Volume of slice i of n. */
  function SliceVolume(diff: nat, n: nat, i: nat): int
    requires n > 0
  {
    diff * (i + 1) / n - diff * i / n
  }

  lemma SliceVolumeNonNegative(diff: nat, n: nat, i: nat)
    requires n > 0
    ensures SliceVolume(diff, n, i) >= 0
  {
    MulNext(diff, i);
    DivMonotonic(diff * i, diff * (i + 1), n);
  }

  function Abs(x: int): nat {
    if x < 0 then -x else x
  }

  function SliceOf(s: Session, alpha: Alpha, diff: int, i: nat): Order
    requires s.num > 0
  {
    Order(alpha.timestamp + i * s.length * 1000, SliceVolume(Abs(diff), s.num, i), 0,
          if diff > 0 then Buy else Sale, MY_CONTRACT)
  }

  function Slices(s: Session, alpha: Alpha, diff: int, k: nat): (r: seq<Order>)
    requires s.num > 0
    ensures |r| == k
  {
    seq(k, i requires 0 <= i => SliceOf(s, alpha, diff, i))
  }

  function InsertAlpha(s: Session, st: State, alpha: Alpha): State
    requires s.num > 0
  {
    var diff := alpha.targetVolume - st.target;
    if diff == 0 then st
    else st.(twaps := st.twaps + Slices(s, alpha, diff, s.num), target := alpha.targetVolume)
  }

  /** The opposite side's best price, else the own side's, else the last price. */
  function BasePrice(b: Book, d: Direction): int {
    if Opp(b, d) != [] then Opp(b, d)[0].price
    else if Own(b, d) != [] then Own(b, d)[0].price
    else b.acct.lastPrice
  }

  /** The next TWAP order is priced at the current base price and enters the book. */
  function InjectOne(st: State): State
    requires st.head < |st.twaps|
  {
    var o := st.twaps[st.head].(price := BasePrice(st.book, st.twaps[st.head].direction));
    State(Match(if o.volume != 0 then AddOrder(st.book, o) else st.book),
          st.twaps[st.head := o], st.head + 1, st.target)
  }

  /** All TWAP orders at the head of the list that are due before time t. */
  function Inject(st: State, t: int): State
    decreases |st.twaps| - st.head
  {
    if st.head < |st.twaps| && st.twaps[st.head].timestamp < t then Inject(InjectOne(st), t) else st
  }

  function Complete(st: State): State {
    Inject(st, MAX_INT)
  }

  // ------------------------------------------------------------------ orders

  /** The lowest and the highest price a limit order may have. */
  function PriceRange(l: Limits, base: int, d: Direction): (int, int) {
    if d == Buy
    then (l.down, Round2(Min(Max(base * 102, (base + 10) * 100), l.up * 100)))
    else (Round2(Max(Min(base * 98, (base - 10) * 100), l.down * 100)), l.up)
  }

  predicate Accepted(l: Limits, base: int, o: Order) {
    var range := PriceRange(l, base, o.direction);
    range.0 <= o.price <= range.1
  }

  /** An order that takes from the opposite side and never rests. */
  function TakeOnly(b: Book, o: Order, k: nat): Book
    requires k <= |Opp(b, o.direction)|
  {
    var r := SweepWithin(o, Opp(b, o.direction), b.acct, k);
    MakeBook(o.direction, Own(b, o.direction), r.rest, r.acct)
  }

  /** The resting price of an order of the first three types, if it is admitted. */
  datatype Admission = Admitted(price: int) | Rejected

  function Admit(l: Limits, b: Book, o: Order): Admission {
    var own, opp := Own(b, o.direction), Opp(b, o.direction);
    if o.kind == PRICE_LIMIT then
      var base := BasePrice(b, o.direction);
      if Accepted(l, base, o.(price := base + o.price)) then Admitted(base + o.price) else Rejected
    else if o.kind == OPPOSITE_BEST_PRICE then
      if opp != [] then Admitted(opp[0].price) else Rejected
    else
      if own != [] then Admitted(own[0].price) else Rejected
  }

  /** An order log on a book whose due TWAP orders are in. For a limit order `price` is the
      offset to the base price. */
  function Place(l: Limits, b: Book, o: Order): Book {
    var opp := Opp(b, o.direction);
    if o.kind <= OUR_BEST_PRICE then
      match Admit(l, b, o)
      case Admitted(p) => Match(AddOrder(b, o.(price := p)))
      case Rejected => Match(b)
    else if o.kind == BEST_FIVE_PRICE_NO_LEFT then TakeOnly(b, o, Reach(opp, 0, -100))
    else if o.kind == IMMEDIATE_DEAL_NO_LEFT then TakeOnly(b, o, |opp|)
    else if o.kind == ALL_OR_NOTHING && Total(opp) >= o.volume then TakeOnly(b, o, |opp|)
    else b
  }

  function InsertOrderLog(l: Limits, st: State, o: Order): State {
    var st' := Inject(st, o.timestamp);
    st'.(book := Place(l, st'.book, o))
  }

  // -------------------------------------------------------------------- runs

  datatype Op = AlphaOp(alpha: Alpha) | LogOp(log: Order) | CompleteOp

  function Step(s: Session, l: Limits, st: State, op: Op): State
    requires s.num > 0
  {
    match op
    case AlphaOp(alpha) => InsertAlpha(s, st, alpha)
    case LogOp(log) => InsertOrderLog(l, st, log)
    case CompleteOp => Complete(st)
  }

  function Run(s: Session, l: Limits, st: State, ops: seq<Op>): State
    requires s.num > 0
    decreases |ops|
  {
    if ops == [] then st else Run(s, l, Step(s, l, st, ops[0]), ops[1..])
  }

  lemma {:induction false} RunSnoc(s: Session, l: Limits, st: State, ops: seq<Op>, op: Op)
    requires s.num > 0
    ensures Run(s, l, st, ops + [op]) == Step(s, l, Run(s, l, st, ops), op)
    decreases |ops|
  {
    hide Step;
    var all := ops + [op];
    if ops == [] {
      assert all[0] == op && all[1..] == [];
    } else {
      assert all[0] == ops[0] && all[1..] == ops[1..] + [op];
      RunSnoc(s, l, Step(s, l, st, ops[0]), ops[1..], op);
    }
  }

  /** Every order log of the exchange has a positive volume. */
  predicate ValidOps(ops: seq<Op>) {
    forall i :: 0 <= i < |ops| && ops[i].LogOp? ==> ops[i].log.volume > 0
  }
}
