/** When ties cannot happen: if no two order logs and no two slices share a time stamp, every
    order that comes to rest has a key of its own, and the engine's single fills are fixed. */
module NoTies {
  import opened Orders
  import opened PriorityBook
  import opened Matching
  import opened ContractSpec
  import opened Accounting
  import opened Fills
  import opened TwapSchedule

  /** Own orders are not later than m, the others not later than c. */
  ghost predicate Stamped(c: int, m: int, s: seq<Order>) {
    forall o :: o in s ==> o.timestamp <= if o.kind == MY_CONTRACT then m else c
  }

  ghost predicate BookStamped(c: int, m: int, b: Book) {
    Stamped(c, m, b.sells) && Stamped(c, m, b.buys)
  }

  // -------------------------------------------------------- stamps never change

  lemma TakeStamped(c: int, m: int, s: seq<Order>, v: int)
    requires Stamped(c, m, s) && s != []
    ensures Stamped(c, m, Take(s, v))
  {
    forall o | o in Take(s, v) ensures o.timestamp <= if o.kind == MY_CONTRACT then m else c {
      assert s[0] in s && (o in s || o == Reduce(s[0], v));
    }
  }

  lemma AddStamped(c: int, m: int, b: Book, o: Order)
    requires BookStamped(c, m, b) && Stamped(c, m, [o])
    ensures BookStamped(c, m, AddOrder(b, o))
  {
    var own := Own(b, o.direction);
    assert o in [o];
    forall x | x in Add(o.direction, own, o) ensures x.timestamp <= if x.kind == MY_CONTRACT then m else c {
      AddKeys(o.direction, own, o, x);
    }
  }

  lemma {:induction false} MatchStamped(c: int, m: int, b: Book)
    requires BookStamped(c, m, b)
    ensures BookStamped(c, m, Match(b))
    decreases |b.sells| + |b.buys|
  {
    if Crossed(b) {
      hide Stamped;
      var v := Min(b.sells[0].volume, b.buys[0].volume);
      TakeStamped(c, m, b.sells, v);
      TakeStamped(c, m, b.buys, v);
      MatchStamped(c, m, TradeTops(b, v));
    }
  }

  lemma {:induction false} SweepStamped(c: int, m: int, inc: Order, rest: seq<Order>, a: Account)
    requires Stamped(c, m, rest)
    ensures Stamped(c, m, Sweep(false, inc, rest, a).rest)
    decreases |rest| + if inc.volume > 0 then 1 else 0
  {
    if Fit(false, inc, rest) {
      hide Stamped;
      var v := Min(inc.volume, rest[0].volume);
      TakeStamped(c, m, rest, v);
      SweepStamped(c, m, Reduce(inc, v), Take(rest, v), TradeWith(a, inc, rest[0], v));
    }
  }

  lemma TakingStamped(c: int, m: int, b: Book, o: Order, k: nat)
    requires BookStamped(c, m, b) && k <= |Opp(b, o.direction)|
    ensures BookStamped(c, m, TakeOnly(b, o, k))
  {
    hide Sweep;
    var s := Opp(b, o.direction);
    assert forall x :: x in s[..k] || x in s[k..] ==> x in s;
    SweepStamped(c, m, o, s[..k], b.acct);
  }

  lemma PlaceStamped(l: Limits, c: int, m: int, b: Book, o: Order)
    requires BookStamped(c, m, b) && o.timestamp == c && o.kind < MY_CONTRACT
    ensures BookStamped(c, m, Place(l, b, o))
  {
    hide Stamped, Match, AddOrder, TakeOnly, Reach, Admit, Total;
    if o.kind <= OUR_BEST_PRICE {
      match Admit(l, b, o)
      case Admitted(p) =>
        OwnStamp(c, m, o.(price := p));
        AddStamped(c, m, b, o.(price := p));
        MatchStamped(c, m, AddOrder(b, o.(price := p)));
      case Rejected => MatchStamped(c, m, b);
    } else {
      TakingStamped(c, m, b, o, Reach(Opp(b, o.direction), 0, -100));
      TakingStamped(c, m, b, o, |Opp(b, o.direction)|);
    }
  }

  lemma OwnStamp(c: int, m: int, o: Order)
    requires o.timestamp == if o.kind == MY_CONTRACT then m else c
    ensures Stamped(c, m, [o])
  {
  }

  /** A later stamp makes a new key. */
  lemma LaterIsNew(c: int, m: int, s: seq<Order>, o: Order)
    requires Stamped(c, m, s) && o.timestamp > if o.kind == MY_CONTRACT then m else c
    ensures NewKey(s, o)
  {
  }

  lemma Widened(c: int, m: int, c': int, m': int, b: Book)
    requires BookStamped(c, m, b) && c <= c' && m <= m'
    ensures BookStamped(c', m', b)
  {
  }

  // ------------------------------------------------------------------ one event

  ghost predicate StrictlyTimed(s: seq<Order>) {
    forall i, j :: 0 <= i < j < |s| ==> s[i].timestamp < s[j].timestamp
  }

  /** Resting slices are not later than the last one injected, other orders not than c. */
  ghost predicate InStamps(c: int, st: State) {
    && st.head <= |st.twaps| && StrictlyTimed(st.twaps)
    && (forall o :: o in st.twaps ==> o.kind == MY_CONTRACT)
    && if st.head > 0 then BookStamped(c, st.twaps[st.head - 1].timestamp, st.book)
       else forall m :: BookStamped(c, m, st.book)
  }

  lemma InjectOneStamped(c: int, st: State)
    requires InStamps(c, st) && st.head < |st.twaps|
    ensures FreshSlice(st) && InStamps(c, InjectOne(st))
  {
    hide Stamped, Match, AddOrder, NewKey;
    var o, twaps := NextSlice(st), st.twaps;
    assert o.kind == MY_CONTRACT by { assert twaps[st.head] in twaps; }
    var m := if st.head > 0 then twaps[st.head - 1].timestamp else o.timestamp - 1;
    assert BookStamped(c, m, st.book);
    LaterIsNew(c, m, Own(st.book, o.direction), o);
    Widened(c, m, c, o.timestamp, st.book);
    OwnStamp(c, o.timestamp, o);
    AddStamped(c, o.timestamp, st.book, o);
    MatchStamped(c, o.timestamp, AddOrder(st.book, o));
    MatchStamped(c, o.timestamp, st.book);
  }

  lemma {:induction false} InjectStamped(c: int, st: State, t: int)
    requires InStamps(c, st)
    ensures FreshInject(st, t) && InStamps(c, Inject(st, t))
    decreases |st.twaps| - st.head
  {
    hide InStamps, FreshSlice;
    if st.head < |st.twaps| && st.twaps[st.head].timestamp < t {
      InjectOneStamped(c, st);
      InjectOneAdvances(st);
      InjectStamped(c, InjectOne(st), t);
    }
  }

  lemma LogStamped(l: Limits, c: int, st: State, o: Order)
    requires InStamps(c, st) && c < o.timestamp && o.kind < MY_CONTRACT
    ensures FreshPlace(l, st.book, o) && InStamps(o.timestamp, st.(book := Place(l, st.book, o)))
  {
    hide Stamped, Place, NewKey, Admit;
    var b := st.book;
    var m := if st.head > 0 then st.twaps[st.head - 1].timestamp else 0;
    assert BookStamped(c, m, b);
    if o.kind <= OUR_BEST_PRICE && Admit(l, b, o).Admitted? {
      LaterIsNew(c, m, Own(b, o.direction), o.(price := Admit(l, b, o).price));
    }
    forall m | BookStamped(c, m, b) ensures BookStamped(o.timestamp, m, Place(l, b, o)) {
      Widened(c, m, o.timestamp, m, b);
      PlaceStamped(l, o.timestamp, m, b, o);
    }
  }

  /** Newly recorded slices come after all earlier ones. */
  lemma AlphaStamped(s: Session, c: int, st: State, alpha: Alpha)
    requires s.num > 0 && InStamps(c, st) && StrictlyTimed(InsertAlpha(s, st, alpha).twaps)
    ensures InStamps(c, InsertAlpha(s, st, alpha))
  {
    hide BookStamped, StrictlyTimed;
  }

  // --------------------------------------------------------------------- runs

  /** The order logs are of the exchange's six types and later than c and each other. */
  predicate DistinctLogs(c: int, ops: seq<Op>)
    decreases |ops|
  {
    ops != [] ==>
      && (ops[0].LogOp? ==> c < ops[0].log.timestamp && ops[0].log.kind < MY_CONTRACT)
      && DistinctLogs(if ops[0].LogOp? then ops[0].log.timestamp else c, ops[1..])
  }

  lemma StepStamped(s: Session, l: Limits, c: int, st: State, op: Op)
    requires s.num > 0 && InStamps(c, st) && StrictlyTimed(Step(s, l, st, op).twaps)
    requires op.LogOp? ==> c < op.log.timestamp && op.log.kind < MY_CONTRACT
    ensures FreshStep(l, st, op) && InStamps(if op.LogOp? then op.log.timestamp else c, Step(s, l, st, op))
  {
    hide InStamps, Inject, FreshInject, FreshPlace, Place, StrictlyTimed, InsertAlpha;
    match op
    case AlphaOp(alpha) => AlphaStamped(s, c, st, alpha);
    case CompleteOp => InjectStamped(c, st, MAX_INT);
    case LogOp(o) =>
      InjectStamped(c, st, o.timestamp);
      LogStamped(l, c, Inject(st, o.timestamp), o);
  }

  /** What is recorded at the end contains what is recorded earlier. */
  lemma EarlierStrict(s: Session, l: Limits, st: State, ops: seq<Op>)
    requires s.num > 0 && StrictlyTimed(Run(s, l, st, ops).twaps)
    ensures StrictlyTimed(st.twaps)
  {
    hide Run;
    RecordedSlicesStay(s, l, st, ops);
  }

  lemma {:induction false} RunNeverTies(s: Session, l: Limits, c: int, st: State, ops: seq<Op>)
    requires s.num > 0 && InStamps(c, st) && DistinctLogs(c, ops) && StrictlyTimed(Run(s, l, st, ops).twaps)
    ensures FreshRun(s, l, st, ops)
    decreases |ops|
  {
    if ops != [] {
      hide InStamps, Step, FreshStep, StrictlyTimed;
      var st' := Step(s, l, st, ops[0]);
      EarlierStrict(s, l, st', ops[1..]);
      StepStamped(s, l, c, st, ops[0]);
      RunNeverTies(s, l, if ops[0].LogOp? then ops[0].log.timestamp else c, st', ops[1..]);
    }
  }

  /** If the time stamps of the order logs increase and no two recorded slices share theirs, no
      two orders ever tie, and the engine makes exactly the fills of the sorted book. */
  lemma DistinctStampsNeverTie(s: Session, l: Limits, prevClose: int, prevPosition: int, c: int, ops: seq<Op>)
    requires s.num > 0 && DistinctLogs(c, ops)
    requires StrictlyTimed(Run(s, l, Initial(prevClose, prevPosition), ops).twaps)
    ensures FreshRun(s, l, Initial(prevClose, prevPosition), ops)
  {
    hide Run, FreshRun;
    RunNeverTies(s, l, c, Initial(prevClose, prevPosition), ops);
  }
}
