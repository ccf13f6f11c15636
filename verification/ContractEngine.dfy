/** The contract engine itself: two heaps, the TWAP array and the running totals, updated in
    place. Every method is tied to the function of the same name in ContractSpec. */
module ContractEngines {
  import opened Orders
  import opened PriorityBook
  import opened BinaryHeaps
  import opened Matching
  import opened ContractSpec
  import opened Ledger
  import opened Fills

  const DEFAULT_HEAP_SIZE := 1125
  const MAX_TWAP_LENGTH := 480 * 5

  class ContractEngine {
    const session: Session
    const instrument: nat
    const prevClosePrice: int
    const prevPosition: int
    const limits: Limits

    var income: int
    var lastPrice: int
    var volume: int
    var targetVolume: int
    const saleHeap: BinaryHeap
    const buyHeap: BinaryHeap
    const twapOrders: array<Order>
    var twapSize: nat
    var twapHead: nat

    /** All single fills so far, and the tape they make. */
    ghost var fills: seq<Fill>
    ghost var tape: seq<Fill>
    /** All alphas, order logs and completions so far. */
    ghost var history: seq<Op>

    ghost function Repr(): set<object>
      reads this, saleHeap, buyHeap
    {
      {this, twapOrders} + saleHeap.Repr() + buyHeap.Repr()
    }

    ghost predicate Valid()
      reads this, saleHeap, buyHeap, saleHeap.heapArray, buyHeap.heapArray, twapOrders
    {
      && session.num > 0
      && saleHeap != buyHeap && saleHeap.heapArray != buyHeap.heapArray
      && twapOrders != saleHeap.heapArray && twapOrders != buyHeap.heapArray
      && saleHeap.side == Sale && saleHeap.Valid() && OnSide(Sale, saleHeap.Elems())
      && buyHeap.side == Buy && buyHeap.Valid() && OnSide(Buy, buyHeap.Elems())
      && twapHead <= twapSize <= twapOrders.Length == MAX_TWAP_LENGTH
      && (forall i :: 0 <= i < twapSize ==> twapOrders[i].volume >= 0)
      && limits == InitialLimits(prevClosePrice)
      && Agrees(Account(), prevPosition, income, fills)
    }

    /** No two resting orders of a side share a key, so the heaps have no choice. */
    ghost predicate Distinct()
      requires saleHeap.Valid() && buyHeap.Valid()
      reads this, saleHeap, buyHeap, saleHeap.heapArray, buyHeap.heapArray
    {
      DistinctKeys(saleHeap.Elems()) && DistinctKeys(buyHeap.Elems())
    }

    /** State and fills are those of the run through all events so far. */
    ghost predicate Follows()
      requires Valid()
      reads this, saleHeap, buyHeap, saleHeap.heapArray, buyHeap.heapArray, twapOrders
    {
      RunsTo(session, limits, Initial(prevClosePrice, prevPosition), history, View(), Distinct(), fills)
    }

    ghost function Account(): Account
      reads this
    {
      Matching.Account(volume, lastPrice, tape)
    }

    ghost function BookView(): Book
      requires saleHeap.Valid() && buyHeap.Valid()
      reads this, saleHeap, buyHeap, saleHeap.heapArray, buyHeap.heapArray
    {
      Book(Canon(Sale, saleHeap.Elems()), Canon(Buy, buyHeap.Elems()), Account())
    }

    ghost function View(): State
      requires Valid()
      reads this, saleHeap, buyHeap, saleHeap.heapArray, buyHeap.heapArray, twapOrders
    {
      State(BookView(), twapOrders[..twapSize], twapHead, targetVolume)
    }

    constructor (session: Session, prevClosePrice: int, prevPosition: int, instrument: nat)
      requires session.num > 0
      ensures Valid() && View() == Initial(prevClosePrice, prevPosition) && fresh(Repr())
      ensures this.session == session && this.prevClosePrice == prevClosePrice && this.prevPosition == prevPosition
      ensures this.instrument == instrument && fills == [] && history == [] && Distinct() && Follows()
    {
      hide Ordered, Slots, Round2;
      this.session := session;
      this.instrument := instrument;
      this.prevClosePrice := prevClosePrice;
      this.prevPosition := prevPosition;
      income := 0;
      lastPrice := prevClosePrice;
      volume := prevPosition;
      targetVolume := prevPosition;
      limits := Limits(Round2(prevClosePrice * 110), Round2(prevClosePrice * 90));
      saleHeap := new BinaryHeap(DEFAULT_HEAP_SIZE, Sale);
      buyHeap := new BinaryHeap(DEFAULT_HEAP_SIZE, Buy);
      twapSize := 0;
      twapHead := 0;
      twapOrders := new Order[MAX_TWAP_LENGTH];
      fills := [];
      tape := [];
      history := [];
      new;
      AgreesInitially(prevPosition, prevClosePrice);
      RunsToStart(session, limits, Initial(prevClosePrice, prevPosition));
    }

    method InsertAlpha(alpha: Alpha)
      requires Valid() && Follows()
      requires alpha.targetVolume != targetVolume ==> twapSize + session.num <= MAX_TWAP_LENGTH
      modifies `twapSize, `targetVolume, `history, twapOrders
      ensures Valid() && View() == ContractSpec.InsertAlpha(session, old(View()), alpha)
      ensures Follows() && history == old(history) + [AlphaOp(alpha)]
    {
      hide Canon, Agrees, DistinctKeys, ContractSpec.InsertAlpha;
      RecordAlpha(alpha);
      history := history + [AlphaOp(alpha)];
      NextEvent(AlphaOp(alpha));
    }

    /** Something has happened that leads from the old state to this one. */
    twostate lemma NextEvent(op: Op)
      requires old(Valid()) && Valid() && old(Follows()) && history == old(history) + [op]
      requires View() == Step(session, limits, old(View()), op)
      requires old(Distinct()) && FreshStep(limits, old(View()), op) ==>
        Distinct() && fills == old(fills) + StepFills(limits, old(View()), op)
      ensures Follows()
    {
      RunsToNext(session, limits, Initial(prevClosePrice, prevPosition), old(history), op,
                 old(View()), old(Distinct()), old(fills), View(), Distinct(), fills);
    }

    /** The slicing of an alpha. */
    method RecordAlpha(alpha: Alpha)
      requires Valid()
      requires alpha.targetVolume != targetVolume ==> twapSize + session.num <= MAX_TWAP_LENGTH
      modifies `twapSize, `targetVolume, twapOrders
      ensures Valid() && View() == ContractSpec.InsertAlpha(session, old(View()), alpha)
    {
      hide Canon, Agrees;
      var diff := alpha.targetVolume - targetVolume;
      if diff != 0 {
        targetVolume := alpha.targetVolume;
        AppendSlices(alpha, diff);
        ghost var added := Slices(session, alpha, diff, session.num);
        SlicesNonNegative(alpha, diff);
        forall i | 0 <= i < twapSize ensures twapOrders[i].volume >= 0 {
          assert twapOrders[..twapSize][i] ==
            if i < old(twapSize) then old(twapOrders[..twapSize])[i] else added[i - old(twapSize)];
        }
      }
      assert BookView() == old(BookView());
    }

    /** The slicing loop. */
    method AppendSlices(alpha: Alpha, diff: int)
      requires session.num > 0 && twapSize + session.num <= twapOrders.Length
      modifies `twapSize, twapOrders
      ensures twapSize == old(twapSize) + session.num
      ensures twapOrders[..twapSize] == old(twapOrders[..twapSize]) + Slices(session, alpha, diff, session.num)
    {
      var direction := if diff > 0 then Buy else Sale;
      var amount := if diff < 0 then -diff else diff;
      for i := 0 to session.num
        invariant twapSize == old(twapSize) + i
        invariant twapOrders[..twapSize] == old(twapOrders[..twapSize]) + Slices(session, alpha, diff, i)
      {
        twapOrders[twapSize] := Order(
          alpha.timestamp + i * session.length * 1000,
          amount * (i + 1) / session.num - amount * i / session.num,
          0, direction, MY_CONTRACT);
        twapSize := twapSize + 1;
        assert Slices(session, alpha, diff, i + 1)
            == Slices(session, alpha, diff, i) + [SliceOf(session, alpha, diff, i)];
      }
    }

    lemma SlicesNonNegative(alpha: Alpha, diff: int)
      requires session.num > 0
      ensures forall o :: o in Slices(session, alpha, diff, session.num) ==> o.volume >= 0
    {
      forall i | 0 <= i < session.num ensures Slices(session, alpha, diff, session.num)[i].volume >= 0 {
        SliceVolumeNonNegative(ContractSpec.Abs(diff), session.num, i);
      }
    }

    /** Books one trade. */
    method TradeOrder(saleOrder: Order, buyOrder: Order) returns (tradeVolume: int)
      requires Agrees(Account(), prevPosition, income, fills) && saleOrder.volume > 0 && buyOrder.volume > 0
      modifies `income, `lastPrice, `volume, `fills, `tape
      ensures Agrees(Account(), prevPosition, income, fills)
      ensures tradeVolume == Min(saleOrder.volume, buyOrder.volume)
      ensures Account() == Trade(old(Account()), saleOrder, buyOrder, tradeVolume)
      ensures fills == old(fills) + [FillOf(saleOrder, buyOrder, tradeVolume)]
    {
      hide Push, Agrees;
      var tradePrice;
      if saleOrder.price == buyOrder.price {
        tradePrice := saleOrder.price;
      } else {
        tradePrice := if saleOrder.timestamp > buyOrder.timestamp then buyOrder.price else saleOrder.price;
      }
      lastPrice := tradePrice;
      tradeVolume := if saleOrder.volume < buyOrder.volume then saleOrder.volume else buyOrder.volume;
      ghost var f := FillOf(saleOrder, buyOrder, tradeVolume);
      AgreesNext(old(Account()), prevPosition, income, fills, f);
      if saleOrder.kind == MY_CONTRACT {
        income := income + Round2(tradePrice * tradeVolume * 100);
        volume := volume - tradeVolume;
      } else if buyOrder.kind == MY_CONTRACT {
        income := income - Round2(tradePrice * tradeVolume * 100);
        volume := volume + tradeVolume;
      }
      fills := fills + [f];
      tape := Push(tape, f);
    }

    /** Takes v units from the first order of a heap. */
    static method TakeTop(heap: BinaryHeap, v: int)
      requires heap.Valid() && !heap.IsEmpty() && OnSide(heap.side, heap.Elems())
      requires 0 < v <= heap.Top().volume
      modifies heap, heap.heapArray
      ensures heap.Valid() && OnSide(heap.side, heap.Elems()) && heap.heapArray == old(heap.heapArray)
      ensures old(Canon(heap.side, heap.Elems())) != []
      ensures Canon(heap.side, heap.Elems()) == Take(old(Canon(heap.side, heap.Elems())), v)
      ensures old(DistinctKeys(heap.Elems())) ==> DistinctKeys(heap.Elems())
    {
      hide Ordered, Slots, Canon, Take, Best, DistinctKeys;
      CanonTop(heap.side, heap.Elems(), heap.Top(), v);
      StillDistinct(heap.Elems(), heap.Top(), heap.Top().volume - v);
      if v == heap.Top().volume {
        var top := heap.Pop();
      } else {
        heap.ReduceTop(v);
      }
    }

    static lemma StillDistinct(m: multiset<Order>, t: Order, v: int)
      requires t in m
      ensures DistinctKeys(m) ==>
        DistinctKeys(m - multiset{t}) && DistinctKeys(m - multiset{t} + multiset{t.(volume := v)})
    {
      if DistinctKeys(m) {
        DistinctEdit(m, t, v);
      }
    }

    /** Takes v units from the first order of a heap and drops the order when it is used up. */
    static method Deduct(heap: BinaryHeap, v: int)
      requires heap.Valid() && !heap.IsEmpty() && OnSide(heap.side, heap.Elems())
      requires 0 < v <= heap.Top().volume
      modifies heap, heap.heapArray
      ensures heap.Valid() && OnSide(heap.side, heap.Elems()) && heap.heapArray == old(heap.heapArray)
      ensures old(Canon(heap.side, heap.Elems())) != []
      ensures Canon(heap.side, heap.Elems()) == Take(old(Canon(heap.side, heap.Elems())), v)
      ensures |heap.Elems()| < old(|heap.Elems()|) ||
              (|heap.Elems()| == old(|heap.Elems()|) && v < old(heap.Top().volume))
      ensures old(DistinctKeys(heap.Elems())) ==> DistinctKeys(heap.Elems())
    {
      hide Ordered, Slots, Canon, Take, Best, DistinctKeys;
      CanonTop(heap.side, heap.Elems(), heap.Top(), v);
      StillDistinct(heap.Elems(), heap.Top(), heap.Top().volume - v);
      ghost var m, t := heap.Elems(), heap.Top();
      heap.ReduceTop(v);
      if heap.Top().volume == 0 {
        assert m - multiset{t} + multiset{heap.Top()} - multiset{heap.Top()} == m - multiset{t};
        var used := heap.Pop();
      }
    }

    method ProcessTrade()
      requires Valid()
      modifies `income, `lastPrice, `volume, `fills, `tape, saleHeap, buyHeap, saleHeap.heapArray, buyHeap.heapArray
      ensures Valid() && BookView() == Match(old(BookView()))
      ensures old(Distinct()) ==> Distinct() && fills == old(fills) + MatchFills(old(BookView()))
      ensures saleHeap.heapArray == old(saleHeap.heapArray) && buyHeap.heapArray == old(buyHeap.heapArray)
    {
      hide Canon, MatchFills;
      while !saleHeap.IsEmpty() && !buyHeap.IsEmpty()
        invariant Valid() && Match(BookView()) == Match(old(BookView()))
        invariant old(Distinct()) ==>
          Distinct() && fills + MatchFills(BookView()) == old(fills) + MatchFills(old(BookView()))
        invariant saleHeap.heapArray == old(saleHeap.heapArray) && buyHeap.heapArray == old(buyHeap.heapArray)
        decreases |saleHeap.Elems()| + |buyHeap.Elems()|
      {
        ghost var b := BookView();
        TopsOfView();
        if saleHeap.Top().price > buyHeap.Top().price {
          break;
        }
        ghost var before := fills;
        var tradeVolume := TradeBest();
        MatchPart(b, tradeVolume);
        MatchFillsNext(b);
        FillsAssoc(before, FillOf(b.sells[0], b.buys[0], tradeVolume), MatchFills(BookView()));
      }
      TopsOfView();
      NotCrossedStays(BookView());
      MatchFillsDone(BookView());
    }

    /** The best sale trades with the best buy. */
    method TradeBest() returns (tradeVolume: int)
      requires Valid() && !saleHeap.IsEmpty() && !buyHeap.IsEmpty() && saleHeap.Top().price <= buyHeap.Top().price
      modifies `income, `lastPrice, `volume, `fills, `tape, saleHeap, buyHeap, saleHeap.heapArray, buyHeap.heapArray
      ensures Valid()
      ensures saleHeap.heapArray == old(saleHeap.heapArray) && buyHeap.heapArray == old(buyHeap.heapArray)
      ensures var b := old(BookView());
        && Crossed(b) && 0 < tradeVolume <= Min(b.sells[0].volume, b.buys[0].volume)
        && BookView() == TradeTops(b, tradeVolume) && fills == old(fills) + [FillOf(b.sells[0], b.buys[0], tradeVolume)]
        && (old(Distinct()) ==> Distinct() && tradeVolume == Min(b.sells[0].volume, b.buys[0].volume))
      ensures |saleHeap.Elems()| + |buyHeap.Elems()| < old(|saleHeap.Elems()| + |buyHeap.Elems()|)
    {
      hide Slots, Canon, Agrees, DistinctKeys, OnSide;
      TopsOfView();
      DistinctTops();
      var saleOrder, buyOrder := saleHeap.Top(), buyHeap.Top();
      tradeVolume := TradeOrder(saleOrder, buyOrder);
      Deduct(saleHeap, tradeVolume);
      Deduct(buyHeap, tradeVolume);
    }

    lemma TopsOfView()
      requires Valid()
      ensures var b := BookView();
        && (saleHeap.IsEmpty() <==> b.sells == []) && (buyHeap.IsEmpty() <==> b.buys == [])
        && (!saleHeap.IsEmpty() ==>
              SameKey(b.sells[0], saleHeap.Top()) && 0 < saleHeap.Top().volume <= b.sells[0].volume)
        && (!buyHeap.IsEmpty() ==>
              SameKey(b.buys[0], buyHeap.Top()) && 0 < buyHeap.Top().volume <= b.buys[0].volume)
    {
      CanonSorted(Sale, saleHeap.Elems());
      CanonSorted(Buy, buyHeap.Elems());
      if !saleHeap.IsEmpty() {
        CanonTop(Sale, saleHeap.Elems(), saleHeap.Top(), saleHeap.Top().volume);
      }
      if !buyHeap.IsEmpty() {
        CanonTop(Buy, buyHeap.Elems(), buyHeap.Top(), buyHeap.Top().volume);
      }
    }

    /** Without ties the first orders of the heaps are the first entries of the sides. */
    lemma DistinctTops()
      requires Valid()
      ensures Distinct() && !saleHeap.IsEmpty() ==> BookView().sells != [] && BookView().sells[0] == saleHeap.Top()
      ensures Distinct() && !buyHeap.IsEmpty() ==> BookView().buys != [] && BookView().buys[0] == buyHeap.Top()
    {
      if Distinct() && !saleHeap.IsEmpty() {
        DistinctTop(Sale, saleHeap.Elems(), saleHeap.Top());
      }
      if Distinct() && !buyHeap.IsEmpty() {
        DistinctTop(Buy, buyHeap.Elems(), buyHeap.Top());
      }
    }

    /** Puts an order into a heap. */
    static method Rest(heap: BinaryHeap, o: Order)
      requires heap.Valid() && OnSide(heap.side, heap.Elems()) && CanRest(heap.side, o)
      modifies heap, heap.heapArray
      ensures heap.Valid() && OnSide(heap.side, heap.Elems())
      ensures heap.heapArray == old(heap.heapArray) || fresh(heap.heapArray)
      ensures Canon(heap.side, heap.Elems()) == Add(heap.side, old(Canon(heap.side, heap.Elems())), o)
      ensures old(DistinctKeys(heap.Elems()) && NewKey(Canon(heap.side, heap.Elems()), o)) ==>
        DistinctKeys(heap.Elems())
    {
      CanonAdd(heap.side, heap.Elems(), o);
      if DistinctKeys(heap.Elems()) && NewKey(Canon(heap.side, heap.Elems()), o) {
        DistinctAdd(heap.side, heap.Elems(), o);
      }
      heap.Insert(o);
    }

    lemma HeapQuotes()
      requires Valid()
      ensures !saleHeap.IsEmpty() ==> Cheapest(saleHeap.Elems(), saleHeap.Top().price)
      ensures !buyHeap.IsEmpty() ==> Dearest(buyHeap.Elems(), buyHeap.Top().price)
      ensures saleHeap.IsEmpty() <==> saleHeap.Elems() == multiset{}
      ensures buyHeap.IsEmpty() <==> buyHeap.Elems() == multiset{}
    {
      hide Ordered, Slots, Best, Cheapest, Dearest;
      if !saleHeap.IsEmpty() {
        BestQuote(Sale, saleHeap.Elems(), saleHeap.Top());
      }
      if !buyHeap.IsEmpty() {
        BestQuote(Buy, buyHeap.Elems(), buyHeap.Top());
      }
    }

    /** The best opposite price, else the best own one, else the last price. */
    method GetCurrentBasePrice(direction: Direction) returns (price: int)
      requires Valid()
      ensures price == BasePrice(BookView(), direction)
      ensures QuoteOf(saleHeap.Elems(), buyHeap.Elems(), lastPrice, direction, price)
    {
      hide Canon;
      HeapQuotes();
      TopsOfView();
      if direction == Sale {
        if !buyHeap.IsEmpty() {
          return buyHeap.Top().price;
        }
        if !saleHeap.IsEmpty() {
          return saleHeap.Top().price;
        }
      } else {
        if !saleHeap.IsEmpty() {
          return saleHeap.Top().price;
        }
        if !buyHeap.IsEmpty() {
          return buyHeap.Top().price;
        }
      }
      return lastPrice;
    }

    /** Rests an order on its own side and matches. */
    method RestAndMatch(o: Order)
      requires Valid() && o.volume > 0
      modifies `income, `lastPrice, `volume, `fills, `tape, saleHeap, buyHeap, saleHeap.heapArray, buyHeap.heapArray
      ensures Valid() && BookView() == Match(AddOrder(old(BookView()), o)) && fresh(Repr() - old(Repr()))
      ensures old(Distinct() && NewKey(Own(BookView(), o.direction), o)) ==>
        Distinct() && fills == old(fills) + MatchFills(AddOrder(old(BookView()), o))
    {
      hide Canon, DistinctKeys;
      if o.direction == Sale {
        Rest(saleHeap, o);
      } else {
        Rest(buyHeap, o);
      }
      assert BookView() == AddOrder(old(BookView()), o);
      ProcessTrade();
    }

    /** One round of the TWAP loop. */
    method InjectNext()
      requires Valid() && twapHead < twapSize
      modifies Repr()
      ensures Valid() && View() == InjectOne(old(View())) && fresh(Repr() - old(Repr()))
      ensures twapHead == old(twapHead) + 1 && twapSize == old(twapSize) && history == old(history)
      ensures old(Distinct() && FreshSlice(View())) ==> Distinct() && fills == old(fills) + InjectOneFills(old(View()))
    {
      hide Ordered, Slots, Canon, Match, Agrees, DistinctKeys, AddOrder, QuoteOf;
      var price := GetCurrentBasePrice(twapOrders[twapHead].direction);
      var orderLog := twapOrders[twapHead].(price := price);
      twapOrders[twapHead] := orderLog;
      twapHead := twapHead + 1;
      assert BookView() == old(BookView());
      if orderLog.volume != 0 {
        RestAndMatch(orderLog);
      } else {
        ProcessTrade();
      }
    }

    method ProcessTwapOrdersIfNecessary(currentTime: int)
      requires Valid()
      modifies Repr()
      ensures Valid() && View() == Inject(old(View()), currentTime)
      ensures fresh(Repr() - old(Repr())) && history == old(history)
      ensures old(Distinct() && FreshInject(View(), currentTime)) ==>
        Distinct() && fills == old(fills) + InjectFills(old(View()), currentTime)
    {
      hide Canon, Agrees, DistinctKeys, InjectOne, FreshSlice;
      while twapHead < twapSize && twapOrders[twapHead].timestamp < currentTime
        invariant Valid() && fresh(Repr() - old(Repr())) && history == old(history)
        invariant Inject(View(), currentTime) == Inject(old(View()), currentTime)
        invariant old(Distinct() && FreshInject(View(), currentTime)) ==>
          && Distinct() && FreshInject(View(), currentTime)
          && fills + InjectFills(View(), currentTime) == old(fills) + InjectFills(old(View()), currentTime)
        decreases twapSize - twapHead
      {
        ghost var before, one := fills, InjectOneFills(View());
        InjectNext();
        FillsConcat(before, one, InjectFills(View(), currentTime));
      }
    }

    method OnComplete()
      requires Valid() && Follows()
      modifies Repr()
      ensures Valid() && View() == Complete(old(View())) && fresh(Repr() - old(Repr()))
      ensures Follows() && history == old(history) + [CompleteOp]
    {
      hide Canon, Inject, FreshInject, InjectFills;
      ProcessTwapOrdersIfNecessary(MAX_INT);
      history := history + [CompleteOp];
      NextEvent(CompleteOp);
    }

    /** The incoming order, or what is left of it, takes from the first resting order. */
    method TradeWithTop(heap: BinaryHeap, orderLog: Order) returns (left: Order)
      requires Valid() && orderLog.volume > 0
      requires heap == (if orderLog.direction == Sale then buyHeap else saleHeap) && !heap.IsEmpty()
      modifies `income, `lastPrice, `volume, `fills, `tape, saleHeap, buyHeap, saleHeap.heapArray, buyHeap.heapArray
      ensures Valid()
      ensures saleHeap.heapArray == old(saleHeap.heapArray) && buyHeap.heapArray == old(buyHeap.heapArray)
      ensures var d, b := orderLog.direction, old(BookView());
        && Opp(b, d) != [] && var v := orderLog.volume - left.volume;
        && 0 < v <= Min(orderLog.volume, Opp(b, d)[0].volume) && left == Reduce(orderLog, v)
        && BookView() == MakeBook(d, Own(b, d), Take(Opp(b, d), v), TradeWith(b.acct, orderLog, Opp(b, d)[0], v))
        && fills == old(fills) + [FillWith(orderLog, Opp(b, d)[0], v)]
        && (old(Distinct()) ==> Distinct() && v == Min(orderLog.volume, Opp(b, d)[0].volume))
    {
      hide Slots, Canon, Agrees, DistinctKeys, Take, OnSide;
      ghost var b := BookView();
      TopsOfView();
      DistinctTops();
      SameKeySameTrade(Account(), orderLog, heap.Top(), Opp(b, orderLog.direction)[0],
                       Min(orderLog.volume, heap.Top().volume));
      var topOrder := heap.Top();
      var tradeVolume;
      if orderLog.direction == Sale {
        tradeVolume := TradeOrder(orderLog, topOrder);
      } else {
        tradeVolume := TradeOrder(topOrder, orderLog);
      }
      left := orderLog.(volume := orderLog.volume - tradeVolume);
      TakeTop(heap, tradeVolume);
    }

    method ImmediateDealNoLeft(heap: BinaryHeap, order: Order)
      requires Valid() && order.volume > 0
      requires heap == if order.direction == Sale then buyHeap else saleHeap
      modifies `income, `lastPrice, `volume, `fills, `tape, saleHeap, buyHeap, saleHeap.heapArray, buyHeap.heapArray
      ensures Valid()
      ensures saleHeap.heapArray == old(saleHeap.heapArray) && buyHeap.heapArray == old(buyHeap.heapArray)
      ensures var b := old(BookView()); BookView() == TakeOnly(b, order, |Opp(b, order.direction)|)
      ensures var s := Opp(old(BookView()), order.direction);
        old(Distinct()) ==> Distinct() && fills == old(fills) + TakenFills(order, s, |s|)
    {
      hide EndsIn;
      ghost var d, b := order.direction, BookView();
      ghost var s := Opp(b, d);
      ghost var end, all := SweepWithin(order, s, b.acct, |s|), fills + TakenFills(order, s, |s|);
      TakingStarts(order, s, b.acct, |s|, fills);
      var orderLog := order;
      while orderLog.volume > 0 && !heap.IsEmpty()
        invariant Valid() && orderLog.direction == d
        invariant saleHeap.heapArray == old(saleHeap.heapArray) && buyHeap.heapArray == old(buyHeap.heapArray)
        invariant Own(BookView(), d) == Own(b, d)
        invariant EndsIn(orderLog, Opp(BookView(), d), BookView().acct, |Opp(BookView(), d)|, end)
        invariant old(Distinct()) ==>
          Distinct() && FillsUpTo(fills, orderLog, Opp(BookView(), d), |Opp(BookView(), d)|, all)
        decreases orderLog.volume
      {
        ghost var c, before := BookView(), fills;
        var left := TradeWithTop(heap, orderLog);
        TakingStep(orderLog, Opp(c, d), c.acct, |Opp(c, d)|, orderLog.volume - left.volume, end, before, all);
        orderLog := left;
      }
      TopsOfView();
      TakingEnds(orderLog, Opp(BookView(), d), BookView().acct, |Opp(BookView(), d)|, end, fills, all);
    }

    method BestFivePriceNoLeft(heap: BinaryHeap, order: Order)
      requires Valid() && order.volume > 0
      requires heap == if order.direction == Sale then buyHeap else saleHeap
      modifies `income, `lastPrice, `volume, `fills, `tape, saleHeap, buyHeap, saleHeap.heapArray, buyHeap.heapArray
      ensures Valid()
      ensures saleHeap.heapArray == old(saleHeap.heapArray) && buyHeap.heapArray == old(buyHeap.heapArray)
      ensures var b := old(BookView()); BookView() == TakeOnly(b, order, Reach(Opp(b, order.direction), 0, -100))
      ensures var s := Opp(old(BookView()), order.direction);
        old(Distinct()) ==> Distinct() && fills == old(fills) + TakenFills(order, s, Reach(s, 0, -100))
    {
      hide Ordered, Slots, Canon, Agrees, DistinctKeys, Push, SweepWithin, TakenFills, Reach, Take, EndsIn, FillsUpTo;
      ghost var d, b := order.direction, BookView();
      ghost var s, k := Opp(b, d), Reach(Opp(b, d), 0, -100);
      ghost var end, all := SweepWithin(order, s, b.acct, k), fills + TakenFills(order, s, k);
      TakingStarts(order, s, b.acct, k, fills);
      var orderLog := order;
      var levelNum, lastPriceLevel := 0, -100;
      while orderLog.volume > 0 && !heap.IsEmpty()
        invariant Valid() && orderLog.direction == d && 0 <= levelNum <= 5
        invariant saleHeap.heapArray == old(saleHeap.heapArray) && buyHeap.heapArray == old(buyHeap.heapArray)
        invariant Own(BookView(), d) == Own(b, d)
        invariant EndsIn(orderLog, Opp(BookView(), d), BookView().acct,
                         Reach(Opp(BookView(), d), levelNum, lastPriceLevel), end)
        invariant old(Distinct()) ==>
          && Distinct()
          && FillsUpTo(fills, orderLog, Opp(BookView(), d), Reach(Opp(BookView(), d), levelNum, lastPriceLevel), all)
        decreases orderLog.volume
      {
        ghost var c, before := BookView(), fills;
        TopsOfView();
        var topOrder := heap.Top();
        if topOrder.price != lastPriceLevel {
          NewLevel(Opp(c, d), levelNum, lastPriceLevel);
          levelNum := levelNum + 1;
          lastPriceLevel := topOrder.price;
          if levelNum > 5 {
            TakingEnds(orderLog, Opp(c, d), c.acct, 0, end, fills, all);
            return;
          }
        }
        var left := TradeWithTop(heap, orderLog);
        LevelStep(orderLog, Opp(c, d), c.acct, levelNum, lastPriceLevel, orderLog.volume - left.volume,
                  end, before, all);
        orderLog := left;
      }
      TopsOfView();
      ghost var c := BookView();
      ReachOfEmpty(levelNum, lastPriceLevel);
      TakingEnds(orderLog, Opp(c, d), c.acct, Reach(Opp(c, d), levelNum, lastPriceLevel), end, fills, all);
    }

    static lemma ReachOfEmpty(n: int, p: int)
      ensures Reach([], n, p) == 0
    {
    }

    /** Pops orders until their volume reaches the limit or the heap is empty. */
    static method CollectPending(heap: BinaryHeap, limit: int) returns (pending: seq<Order>, volumeSum: int)
      requires heap.Valid() && OnSide(heap.side, heap.Elems()) && limit > 0
      modifies heap, heap.heapArray
      ensures heap.Valid() && OnSide(heap.side, heap.Elems()) && heap.heapArray == old(heap.heapArray)
      ensures heap.Elems() + multiset(pending) == old(heap.Elems()) && Queue(heap.side, pending, heap.Elems())
      ensures volumeSum == Total(pending) && (pending != [] ==> Total(pending[..|pending| - 1]) < limit)
      ensures volumeSum >= limit <==> Total(old(Canon(heap.side, heap.Elems()))) >= limit
    {
      hide OnSide, Collected;
      ghost var m := heap.Elems();
      volumeSum := 0;
      pending := [];
      QueueStart(heap.side, m);
      CollectedStart(heap.side, m, limit);
      while volumeSum < limit && !heap.IsEmpty()
        invariant heap.Valid() && OnSide(heap.side, heap.Elems()) && heap.heapArray == old(heap.heapArray)
        invariant Collected(heap.side, m, pending, heap.Elems(), limit) && volumeSum == Total(pending)
        decreases |heap.Elems()|
      {
        CollectedPop(heap.side, m, pending, heap.Elems(), limit, heap.Top());
        var topOrder := heap.Pop();
        volumeSum := volumeSum + topOrder.volume;
        pending := pending + [topOrder];
      }
      CollectedAll(heap.side, m, pending, heap.Elems(), limit);
    }

    /** Trades the pending orders; what is left of the last one goes back into the heap. */
    method TradePending(heap: BinaryHeap, order: Order, pending: seq<Order>)
      requires Valid() && order.volume > 0
      requires heap == if order.direction == Sale then buyHeap else saleHeap
      requires Queue(heap.side, pending, heap.Elems())
      requires order.volume <= Total(pending)
      requires pending != [] ==> Total(pending[..|pending| - 1]) < order.volume
      modifies `income, `lastPrice, `volume, `fills, `tape, heap, heap.heapArray
      ensures Valid() && fresh(Repr() - old(Repr()))
      ensures var d, own, s := order.direction, old(Own(BookView(), order.direction)),
                               Canon(heap.side, old(heap.Elems()) + multiset(pending));
        && var r := SweepWithin(order, s, old(Account()), |s|);
        && BookView() == MakeBook(d, own, r.rest, r.acct)
      ensures var m := old(heap.Elems()) + multiset(pending);
        var s := Canon(heap.side, m);
        DistinctKeys(m) ==> DistinctKeys(heap.Elems()) && fills == old(fills) + TakenFills(order, s, |s|)
    {
      hide Ordered, Slots, Canon, Agrees, Take, Queue, Total, OnSide, SweepWithin, TakenFills, EndsIn, FillsUpTo;
      QueueStart(heap.side, heap.Elems());
      ghost var d := order.direction;
      ghost var m := heap.Elems() + multiset(pending);
      ghost var s := Canon(heap.side, m);
      ghost var end, all := SweepWithin(order, s, Account(), |s|), fills + TakenFills(order, s, |s|);
      TakingStarts(order, s, Account(), |s|, fills);
      var orderLog, queue := order, pending;
      while queue != []
        invariant Valid() && fresh(Repr() - old(Repr())) && orderLog.direction == d
        invariant Own(BookView(), d) == old(Own(BookView(), order.direction))
        invariant Queue(heap.side, queue, heap.Elems()) && orderLog.volume <= Total(queue)
        invariant if queue == [] then orderLog.volume == 0 else Total(queue[..|queue| - 1]) < orderLog.volume
        invariant var t := Canon(heap.side, heap.Elems() + multiset(queue));
          && EndsIn(orderLog, t, Account(), |t|, end)
          && (DistinctKeys(m) ==>
                DistinctKeys(heap.Elems() + multiset(queue)) && FillsUpTo(fills, orderLog, t, |t|, all))
        decreases |queue|
      {
        ghost var t, a, before := Canon(heap.side, heap.Elems() + multiset(queue)), Account(), fills;
        var left := TradeFirstPending(heap, orderLog, queue);
        TakingStep(orderLog, t, a, |t|, orderLog.volume - left.volume, end, before, all);
        orderLog := left;
        queue := queue[1..];
      }
      assert heap.Elems() + multiset(queue) == heap.Elems();
      ghost var t := Canon(heap.side, heap.Elems());
      TakingEnds(orderLog, t, Account(), |t|, end, fills, all);
    }

    method TradeFirstPending(heap: BinaryHeap, orderLog: Order, queue: seq<Order>) returns (left: Order)
      requires Valid()
      requires heap == if orderLog.direction == Sale then buyHeap else saleHeap
      requires queue != [] && Queue(heap.side, queue, heap.Elems())
      requires Total(queue[..|queue| - 1]) < orderLog.volume <= Total(queue)
      modifies `income, `lastPrice, `volume, `fills, `tape, heap, heap.heapArray
      ensures Valid() && fresh(Repr() - old(Repr()))
      ensures Queue(heap.side, queue[1..], heap.Elems()) && left.volume <= Total(queue[1..])
      ensures if queue[1..] == [] then left.volume == 0 else Total(queue[1..][..|queue| - 2]) < left.volume
      ensures var s, v := Canon(heap.side, old(heap.Elems()) + multiset(queue)), orderLog.volume - left.volume;
        && s != [] && 0 < v <= Min(orderLog.volume, s[0].volume) && left == Reduce(orderLog, v)
        && Canon(heap.side, heap.Elems() + multiset(queue[1..])) == Take(s, v)
        && Account() == TradeWith(old(Account()), orderLog, s[0], v)
        && fills == old(fills) + [FillWith(orderLog, s[0], v)]
        && (DistinctKeys(old(heap.Elems()) + multiset(queue)) ==>
              v == Min(orderLog.volume, s[0].volume) && DistinctKeys(heap.Elems() + multiset(queue[1..])))
    {
      hide Slots, Canon, Agrees, DistinctKeys, Push, Queue, OnSide;
      var topOrder := queue[0];
      AllPositive(heap, queue);
      QueueVolumes(queue, orderLog.volume);
      QueueHead(heap, queue);
      SameKeySameTrade(Account(), orderLog, topOrder, Canon(heap.side, heap.Elems() + multiset(queue))[0],
                       Min(orderLog.volume, topOrder.volume));
      var tradeVolume;
      if orderLog.direction == Sale {
        tradeVolume := TradeOrder(orderLog, topOrder);
      } else {
        tradeVolume := TradeOrder(topOrder, orderLog);
      }
      left := orderLog.(volume := orderLog.volume - tradeVolume);
      PutBack(heap, queue, tradeVolume);
    }

    /** What is left of the first queued order after v units were traded returns to the heap. */
    static method PutBack(heap: BinaryHeap, queue: seq<Order>, v: int)
      requires heap.Valid() && OnSide(heap.side, heap.Elems())
      requires queue != [] && Queue(heap.side, queue, heap.Elems()) && 0 < v <= queue[0].volume
      requires v < queue[0].volume ==> queue[1..] == []
      modifies heap, heap.heapArray
      ensures heap.Valid() && OnSide(heap.side, heap.Elems()) && Queue(heap.side, queue[1..], heap.Elems())
      ensures heap.heapArray == old(heap.heapArray) || fresh(heap.heapArray)
      ensures old(Canon(heap.side, heap.Elems() + multiset(queue))) != []
      ensures Canon(heap.side, heap.Elems() + multiset(queue[1..]))
           == Take(old(Canon(heap.side, heap.Elems() + multiset(queue))), v)
      ensures DistinctKeys(old(heap.Elems()) + multiset(queue)) ==> DistinctKeys(heap.Elems() + multiset(queue[1..]))
    {
      hide Ordered, Slots, Canon, Take, Queue, OnSide, DistinctKeys;
      QueueTake(heap.side, queue, heap.Elems(), v);
      StillDistinct(heap.Elems() + multiset(queue), queue[0], queue[0].volume - v);
      var topOrder := queue[0].(volume := queue[0].volume - v);
      if topOrder.volume != 0 {
        heap.Insert(topOrder);
      }
    }

    static lemma QueueHead(heap: BinaryHeap, q: seq<Order>)
      requires heap.Valid() && OnSide(heap.side, heap.Elems()) && q != [] && Queue(heap.side, q, heap.Elems())
      ensures var s := Canon(heap.side, heap.Elems() + multiset(q));
        && s != [] && SameKey(s[0], q[0]) && q[0].volume <= s[0].volume
        && (DistinctKeys(heap.Elems() + multiset(q)) ==> s[0] == q[0])
    {
      var m := heap.Elems() + multiset(q);
      QueueTake(heap.side, q, heap.Elems(), q[0].volume);
      QueueBest(heap.side, q, heap.Elems());
      if DistinctKeys(m) {
        DistinctTop(heap.side, m, q[0]);
      }
    }

    static lemma AllPositive(heap: BinaryHeap, q: seq<Order>)
      requires heap.Valid() && Queue(heap.side, q, heap.Elems())
      ensures forall i :: 0 <= i < |q| ==> q[i].volume > 0
    {
    }

    /** Only the last pending order can be more than what is still asked for. */
    static lemma QueueVolumes(q: seq<Order>, v: int)
      requires q != [] && v <= Total(q) && Total(q[..|q| - 1]) < v
      requires forall i :: 0 <= i < |q| ==> q[i].volume > 0
      ensures v > 0 && Total(q) == q[0].volume + Total(q[1..])
      ensures |q| == 1 ==> v <= q[0].volume && q[1..] == []
      ensures |q| > 1 ==> q[0].volume < v && Total(q[1..][..|q| - 2]) < v - q[0].volume
    {
      TotalNonNegative(q[..|q| - 1]);
      if |q| > 1 {
        assert q[..|q| - 1][1..] == q[1..][..|q| - 2];
        TotalNonNegative(q[1..][..|q| - 2]);
      }
    }

    static lemma TotalNonNegative(s: seq<Order>)
      requires forall i :: 0 <= i < |s| ==> s[i].volume > 0
      ensures Total(s) >= 0
    {
    }

    /** Puts the pending orders back. */
    static method CancelPending(heap: BinaryHeap, pending: seq<Order>)
      requires heap.Valid()
      modifies heap, heap.heapArray
      ensures heap.Valid() && heap.Elems() == old(heap.Elems()) + multiset(pending)
      ensures heap.heapArray == old(heap.heapArray) || fresh(heap.heapArray)
    {
      var queue := pending;
      while queue != []
        invariant heap.Valid() && heap.Elems() + multiset(queue) == old(heap.Elems()) + multiset(pending)
        invariant heap.heapArray == old(heap.heapArray) || fresh(heap.heapArray)
        decreases |queue|
      {
        assert queue == [queue[0]] + queue[1..];
        heap.Insert(queue[0]);
        queue := queue[1..];
      }
    }

    method AllOrNothing(heap: BinaryHeap, order: Order)
      requires Valid() && order.volume > 0
      requires heap == if order.direction == Sale then buyHeap else saleHeap
      modifies `income, `lastPrice, `volume, `fills, `tape, saleHeap, buyHeap, saleHeap.heapArray, buyHeap.heapArray
      ensures Valid() && fresh(Repr() - old(Repr()))
      ensures var b := old(BookView()); var opp := Opp(b, order.direction);
        BookView() == if Total(opp) >= order.volume then TakeOnly(b, order, |opp|) else b
      ensures old(Total(Opp(BookView(), order.direction))) < order.volume ==>
        heap.Elems() == old(heap.Elems()) && income == old(income) && fills == old(fills)
      ensures var s := Opp(old(BookView()), order.direction);
        old(Distinct()) ==>
          Distinct() && fills == old(fills) + if Total(s) >= order.volume then TakenFills(order, s, |s|) else []
    {
      hide Slots, Canon, Agrees, SweepWithin, Queue, Total, TakenFills;
      ghost var b := BookView();
      ghost var opp := Opp(b, order.direction);
      var pending, volumeSum := CollectPending(heap, order.volume);
      assert Account() == b.acct && Own(BookView(), order.direction) == Own(b, order.direction);
      if volumeSum >= order.volume {
        TradePending(heap, order, pending);
      } else {
        CancelPending(heap, pending);
      }
    }

    /** The price a limit order or one of the two copying types rests at, if it may rest. */
    method AdmitOrder(orderLog: Order) returns (r: Admission)
      requires Valid() && orderLog.kind <= OUR_BEST_PRICE
      ensures r == Admit(limits, BookView(), orderLog)
    {
      hide Slots, Canon, Agrees, Min, Max;
      TopsOfView();
      if orderLog.kind == PRICE_LIMIT {
        var basePrice := GetCurrentBasePrice(orderLog.direction);
        var price := basePrice + orderLog.price;
        var up, down;
        if orderLog.direction == Buy {
          up := Max(basePrice * 102, (basePrice + 10) * 100);
          up := Min(up, limits.up * 100);
          up := Round2(up);
          down := limits.down;
        } else {
          down := Min(basePrice * 98, (basePrice - 10) * 100);
          down := Max(down, limits.down * 100);
          down := Round2(down);
          up := limits.up;
        }
        return if price < down || up < price then Rejected else Admitted(price);
      } else if orderLog.kind == OPPOSITE_BEST_PRICE {
        var heap := if orderLog.direction == Sale then buyHeap else saleHeap;
        return if heap.IsEmpty() then Rejected else Admitted(heap.Top().price);
      } else {
        var heap := if orderLog.direction == Sale then saleHeap else buyHeap;
        return if heap.IsEmpty() then Rejected else Admitted(heap.Top().price);
      }
    }

    method InsertOrderLog(orderLog: Order)
      requires Valid() && Follows() && orderLog.volume > 0
      modifies Repr()
      ensures Valid() && View() == ContractSpec.InsertOrderLog(limits, old(View()), orderLog)
      ensures fresh(Repr() - old(Repr()))
      ensures Follows() && history == old(history) + [LogOp(orderLog)]
    {
      hide DistinctKeys, ContractSpec.InsertOrderLog, LogFills;
      HandleOrderLog(orderLog);
      history := history + [LogOp(orderLog)];
      NextEvent(LogOp(orderLog));
    }

    /** Due slices first, then the order itself. */
    method HandleOrderLog(orderLog: Order)
      requires Valid() && orderLog.volume > 0
      modifies Repr()
      ensures Valid() && View() == ContractSpec.InsertOrderLog(limits, old(View()), orderLog)
      ensures fresh(Repr() - old(Repr())) && history == old(history)
      ensures old(Distinct() && FreshLog(limits, View(), orderLog)) ==>
        Distinct() && fills == old(fills) + LogFills(limits, old(View()), orderLog)
    {
      hide Ordered, Slots, Canon, Agrees, DistinctKeys, Inject, InjectFills, FreshInject, Place, PlaceFills, FreshPlace;
      hide ContractSpec.InsertOrderLog, LogFills, FreshLog;
      ghost var st := View();
      LogParts(limits, st, orderLog, fills);
      if twapHead < twapSize && twapOrders[twapHead].timestamp < orderLog.timestamp {
        ProcessTwapOrdersIfNecessary(orderLog.timestamp);
      } else {
        NothingInjected(st, orderLog.timestamp);
      }
      PlaceOrder(orderLog);
    }

    /** The switch over the order types. */
    method PlaceOrder(orderLog: Order)
      requires Valid() && orderLog.volume > 0
      modifies `income, `lastPrice, `volume, `fills, `tape, saleHeap, buyHeap, saleHeap.heapArray, buyHeap.heapArray
      ensures Valid() && BookView() == Place(limits, old(BookView()), orderLog) && fresh(Repr() - old(Repr()))
      ensures old(Distinct() && FreshPlace(limits, BookView(), orderLog)) ==>
        Distinct() && fills == old(fills) + PlaceFills(limits, old(BookView()), orderLog)
    {
      hide Slots, Canon, Agrees, DistinctKeys, Reach, MatchFills, NewKey;
      if orderLog.kind <= OUR_BEST_PRICE {
        var admission := AdmitOrder(orderLog);
        match admission {
          case Admitted(price) => RestAndMatch(orderLog.(price := price));
          case Rejected => ProcessTrade();
        }
      } else {
        var heap := if orderLog.direction == Sale then buyHeap else saleHeap;
        if orderLog.kind == BEST_FIVE_PRICE_NO_LEFT {
          BestFivePriceNoLeft(heap, orderLog);
        } else if orderLog.kind == IMMEDIATE_DEAL_NO_LEFT {
          ImmediateDealNoLeft(heap, orderLog);
        } else if orderLog.kind == ALL_OR_NOTHING {
          AllOrNothing(heap, orderLog);
        }
      }
    }

    /** Our profit since the previous close, in ticks: the position of the day before carried to
        the last price, what each own fill has made since, and the slips of the rounding at
        negative prices. It is the profit of the fills exactly if these cancel. */
    method GetPNL() returns (pnl: int)
      requires Valid()
      ensures var gain := prevPosition * (lastPrice - prevClosePrice) + Gain(tape, lastPrice);
        pnl == gain + Slips(fills) && (pnl == gain <==> Slips(fills) == 0)
    {
      ProfitIdentity(Account(), prevClosePrice, prevPosition, income, fills);
      var exact := lastPrice * volume - prevClosePrice * prevPosition + income;
      pnl := Round2CoverNegative(exact * 100);
    }
  }
}
