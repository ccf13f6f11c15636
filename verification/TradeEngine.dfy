/** All contracts of a day: events are routed to their contract through the hash index, and
    time stamps are shifted by the first alpha's. */
module TradeEngines {
  import opened Modular
  import opened Orders
  import opened PriorityBook
  import opened Matching
  import opened ContractSpec
  import opened Ledger
  import opened Fills
  import opened BinaryHeaps
  import opened ContractEngines
  import opened InstrumentTable
  import InstrumentIds
  import TwapSchedule
  import opened Outputs

  const MOD: nat := 20021
  const NO_OFFSET := -1

  datatype PrevTradeInfo = PrevTradeInfo(id: nat, prevClosePrice: int, prevPosition: int)

  datatype AlphaRecord = AlphaRecord(id: nat, timestamp: int, targetVolume: int)

  datatype OrderRecord = OrderRecord(id: nat, timestamp: int, kind: nat, direction: int, volume: int, priceOff: int)

  // ------------------------------------------------------- one contract's events

  /** The time stamp of the first alpha (a stamp of -1 counts as none). */
  function Offset(alphas: seq<AlphaRecord>): int {
    if alphas == [] then NO_OFFSET
    else
      var before := Offset(alphas[..|alphas| - 1]);
      if before == NO_OFFSET then alphas[|alphas| - 1].timestamp else before
  }

  /** The alphas of one contract with their shifted time stamps. */
  function Targets(id: nat, alphas: seq<AlphaRecord>): seq<Alpha> {
    if alphas == [] then []
    else
      var last := alphas[|alphas| - 1];
      Targets(id, alphas[..|alphas| - 1]) +
      if last.id == id then [Alpha(last.timestamp - Offset(alphas), last.targetVolume)] else []
  }

  function OrderOf(o: OrderRecord, offset: int): Order {
    Order(o.timestamp - offset, o.volume, o.priceOff, if o.direction == -1 then Sale else Buy, o.kind)
  }

  /** The order logs of one contract. */
  function OwnLogs(id: nat, offset: int, logs: seq<OrderRecord>): seq<Order> {
    if logs == [] then []
    else
      var last := logs[|logs| - 1];
      OwnLogs(id, offset, logs[..|logs| - 1]) + if last.id == id then [OrderOf(last, offset)] else []
  }

  ghost predicate Known(infos: seq<PrevTradeInfo>, id: nat) {
    exists k :: 0 <= k < |infos| && infos[k].id == id
  }

  /** What concerns one contract so far. */
  function OwnOps(id: nat, alphas: seq<AlphaRecord>, logs: seq<OrderRecord>): seq<Op> {
    TwapSchedule.AlphaOps(Targets(id, alphas)) + TwapSchedule.LogOps(OwnLogs(id, Offset(alphas), logs))
  }

  /** Every alpha records at most one slice per session. */
  lemma {:induction false} TwapCount(s: Session, l: Limits, st: State, ops: seq<Op>)
    requires s.num > 0 && forall i :: 0 <= i < |ops| ==> ops[i].AlphaOp?
    ensures |Run(s, l, st, ops).twaps| <= |st.twaps| + s.num * |ops|
    decreases |ops|
  {
    if ops != [] {
      TwapCount(s, l, Step(s, l, st, ops[0]), ops[1..]);
      MulNext(s.num, |ops[1..]|);
    }
  }

  class TradeEngine {
    const session: Session
    var timestampOffset: int
    var lastContract: nat
    const contractPairs: array<Pair>
    var contractEngines: seq<ContractEngine>

    /** The ids of the contracts, in the order of their numbers. */
    ghost var names: seq<nat>
    ghost var repr: set<object>

    /** A contract of this id is in order, apart from the index. */
    ghost predicate Sound(e: ContractEngine, name: nat)
      reads this, repr
    {
      && {e, e.saleHeap, e.buyHeap} <= repr && e.Repr() <= repr
      && this !in e.Repr() && contractPairs !in e.Repr()
      && e.Valid() && e.Follows() && e.session == session && e.instrument == name
    }

    /** The contracts are in order and share no objects. */
    ghost predicate Contracts()
      reads this, repr
    {
      && |contractEngines| == |names|
      && (forall i :: 0 <= i < |names| ==> Sound(contractEngines[i], names[i]))
      && (forall i, j :: 0 <= i < j < |names| ==> contractEngines[i].Repr() !! contractEngines[j].Repr())
    }

    /** The contracts are in order, whatever the index looks like. */
    ghost predicate Shape()
      reads this, repr
    {
      && session.num > 0
      && {this, contractPairs} <= repr
      && contractPairs.Length == MOD && Numbered(contractPairs[..], lastContract)
      && lastContract == |contractEngines| == |names|
      && Contracts()
    }

    /** The index leads every id to its own contract. */
    ghost predicate Valid()
      reads this, repr
    {
      Shape() && Holds(contractPairs[..], names)
    }

    /** Puts a contract at a number; all others stay what they are. */
    method Install(index: nat, e: ContractEngine)
      requires Contracts() && index <= |names|
      requires {this, contractPairs} <= repr
      requires e.Valid() && e.Follows() && e.session == session
      requires {e, e.saleHeap, e.buyHeap} <= e.Repr() && e.Repr() !! repr
      modifies `contractEngines, `names, `repr
      ensures Contracts() && repr == old(repr) + e.Repr()
      ensures names == if index == old(|names|) then old(names) + [e.instrument] else old(names)[index := e.instrument]
      ensures contractEngines ==
        if index == old(|names|) then old(contractEngines) + [e] else old(contractEngines)[index := e]
    {
      hide ContractEngine.Valid, ContractEngine.View, ContractEngine.Follows;
      if index == |contractEngines| {
        contractEngines := contractEngines + [e];
        names := names + [e.instrument];
      } else {
        contractEngines := contractEngines[index := e];
        names := names[index := e.instrument];
      }
      repr := repr + e.Repr();
      ghost var all := contractEngines;
      forall i | 0 <= i < |all| ensures all[i].Valid() && all[i].Follows() && all[i].Repr() == old(all[i].Repr()) {
        Untouched(all[i]);
      }
    }

    /** A contract none of whose objects changed is what it was. */
    static twostate lemma Untouched(e: ContractEngine)
      requires old(e.Valid()) && old(e.Follows()) && unchanged(old(e.Repr()))
      ensures e.Valid() && e.Follows() && e.history == old(e.history) && e.Repr() == old(e.Repr())
    {
      hide RunsTo, Agrees, Ordered, Slots, Canon, DistinctKeys;
    }

    constructor (session: Session)
      requires session.num > 0
      ensures Valid() && fresh(repr) && names == [] && timestampOffset == NO_OFFSET && this.session == session
    {
      this.session := session;
      timestampOffset := NO_OFFSET;
      lastContract := 0;
      contractPairs := new Pair[MOD](_ => (0, 0));
      contractEngines := [];
      names := [];
      new;
      repr := {this, contractPairs};
    }

    /** The probe of the hash index. */
    method GetOrInsertInstrument(instrument: nat) returns (r: Lookup)
      requires contractPairs.Length == MOD
      modifies `lastContract, contractPairs
      ensures r == LookUp(old(contractPairs[..]), old(lastContract), instrument)
      ensures r.Found? ==> contractPairs[..] == r.table && lastContract == r.last
      ensures r.OffTheEnd? ==> contractPairs[..] == old(contractPairs[..]) && lastContract == old(lastContract)
    {
      var index: nat := instrument % MOD;
      if contractPairs[index].0 == instrument {
        return Found(contractPairs[index].1, contractPairs[..], lastContract);
      }
      ghost var home := index;
      while contractPairs[index].0 != 0 && contractPairs[index].0 != instrument
        invariant index < MOD
        invariant Probe(contractPairs[..], instrument, home) == Probe(contractPairs[..], instrument, index)
        decreases MOD - index
      {
        index := index + 1;
        if index == MOD {
          return OffTheEnd;
        }
      }
      contractPairs[index] := (instrument, lastContract);
      lastContract := lastContract + 1;
      r := Found(lastContract - 1, contractPairs[..], lastContract);
    }

    /** Opens a contract under the number that the index gives its id. That is the next one,
        unless the id is found in its home slot: then its contract is replaced. */
    method InitContract(info: PrevTradeInfo) returns (r: Lookup)
      requires Shape() && info.id > 0
      modifies this, contractPairs
      ensures Shape() && fresh(repr - old(repr)) && timestampOffset == old(timestampOffset)
      ensures r == LookUp(old(contractPairs[..]), old(lastContract), info.id)
      ensures r.OffTheEnd? ==>
        contractPairs[..] == old(contractPairs[..]) && names == old(names) && contractEngines == old(contractEngines)
      ensures r.Found? ==> contractPairs[..] == r.table && lastContract == r.last && r.index <= old(lastContract)
      ensures r.Found? ==>
        names == if r.index == old(lastContract) then old(names) + [info.id] else old(names)[r.index := info.id]
      ensures r.Found? ==> var e := contractEngines[r.index];
        && fresh(e) && e.history == []
        && e.prevClosePrice == info.prevClosePrice && e.prevPosition == info.prevPosition
      ensures forall k :: 0 <= k < |old(contractEngines)| && (r.Found? ==> k != r.index) ==>
        contractEngines[k] == old(contractEngines)[k] && contractEngines[k].history == old(contractEngines[k].history)
    {
      hide ContractEngine.Valid, ContractEngine.View, ContractEngine.Follows;
      hide Initial, LookUp, Contracts, Numbered;
      NextNumber(contractPairs[..], lastContract, info.id);
      r := GetOrInsertInstrument(info.id);
      StillInOrder(contractEngines);
      if r.Found? {
        var e := new ContractEngine(session, info.prevClosePrice, info.prevPosition, info.id);
        Install(r.index, e);
      }
    }

    /** The index may have changed, but no contract has. */
    twostate lemma StillInOrder(all: seq<ContractEngine>)
      requires old(Contracts()) && repr == old(repr) && names == old(names)
      requires contractEngines == old(contractEngines) == all
      requires forall i :: 0 <= i < |all| ==> unchanged(old(all[i].Repr()))
      ensures Contracts()
    {
      hide ContractEngine.Valid, ContractEngine.View, ContractEngine.Follows;
      forall i | 0 <= i < |all| ensures all[i].Valid() && all[i].Follows() && all[i].Repr() == old(all[i].Repr()) {
        Untouched(all[i]);
      }
    }

    /** A registered id has its contract's number. */
    method Route(id: nat) returns (k: nat)
      requires Valid() && id in names
      modifies `lastContract, contractPairs
      ensures Valid() && k < |names| == |contractEngines| && names[k] == id
      ensures forall j :: 0 <= j < |names| && j != k ==> names[j] != id
    {
      hide ContractEngine.Valid, ContractEngine.View, ContractEngine.Follows;
      hide Holds, Contracts, Numbered, LookUp;
      KnownName(contractPairs[..], names, id);
      NamesDiffer(contractPairs[..], names);
      var r := GetOrInsertInstrument(id);
      k := r.index;
      StillInOrder(contractEngines);
    }

    /** Hands an event to contract k. */
    method Pass(k: nat, op: Op)
      requires Valid() && k < |contractEngines| && (op.LogOp? ==> op.log.volume > 0)
      requires op.AlphaOp? ==> contractEngines[k].twapSize + session.num <= MAX_TWAP_LENGTH
      modifies repr
      ensures Valid() && fresh(repr - old(repr)) && names == old(names) && contractEngines == old(contractEngines)
      ensures timestampOffset == old(timestampOffset)
      ensures contractEngines[k].history == old(contractEngines[k].history) + [op]
      ensures forall j :: 0 <= j < |contractEngines| && j != k ==>
        contractEngines[j].history == old(contractEngines[j].history)
    {
      hide ContractEngine.Valid, ContractEngine.View, ContractEngine.Follows, Holds, Numbered;
      ghost var all := contractEngines;
      assert Sound(contractEngines[k], names[k]) && this !in contractEngines[k].Repr();
      Deliver(contractEngines[k], op);
      assert contractEngines == all;
      repr := repr + contractEngines[k].Repr();
      forall j | 0 <= j < |all| ensures Sound(all[j], names[j]) && (j != k ==> all[j].Repr() == old(all[j].Repr())) {
        if j != k {
          Untouched(all[j]);
        }
      }
      hide TradeEngine.Sound;
    }

    static method Deliver(e: ContractEngine, op: Op)
      requires e.Valid() && e.Follows() && (op.LogOp? ==> op.log.volume > 0)
      requires op.AlphaOp? ==> e.twapSize + e.session.num <= MAX_TWAP_LENGTH
      modifies e.Repr()
      ensures e.Valid() && e.Follows() && fresh(e.Repr() - old(e.Repr())) && e.history == old(e.history) + [op]
    {
      hide ContractEngine.Valid, ContractEngine.View, ContractEngine.Follows;
      match op {
        case AlphaOp(alpha) => e.InsertAlpha(alpha);
        case LogOp(log) => e.InsertOrderLog(log);
        case CompleteOp => e.OnComplete();
      }
    }

    method InsertAlpha(alpha: AlphaRecord)
      requires Valid() && alpha.id in names
      requires forall k :: 0 <= k < |names| && names[k] == alpha.id ==>
        contractEngines[k].twapSize + session.num <= MAX_TWAP_LENGTH
      modifies repr
      ensures Valid() && fresh(repr - old(repr)) && names == old(names) && contractEngines == old(contractEngines)
      ensures |contractEngines| == |names|
      ensures timestampOffset == if old(timestampOffset) == NO_OFFSET then alpha.timestamp else old(timestampOffset)
      ensures forall k :: 0 <= k < |names| ==>
        contractEngines[k].history == old(contractEngines[k].history) +
          if names[k] == alpha.id then [AlphaOp(Alpha(alpha.timestamp - timestampOffset, alpha.targetVolume))] else []
    {
      hide ContractEngine.Valid, ContractEngine.View, ContractEngine.Follows;
      hide Holds, Contracts, Numbered;
      if timestampOffset == NO_OFFSET {
        timestampOffset := alpha.timestamp;
        StillInOrder(contractEngines);
      }
      var k := Route(alpha.id);
      Pass(k, AlphaOp(Alpha(alpha.timestamp - timestampOffset, alpha.targetVolume)));
    }

    method InsertOrderLog(log: OrderRecord)
      requires Valid() && log.id in names && log.volume > 0
      modifies repr
      ensures Valid() && fresh(repr - old(repr)) && names == old(names) && contractEngines == old(contractEngines)
      ensures timestampOffset == old(timestampOffset)
      ensures forall k :: 0 <= k < |names| ==>
        contractEngines[k].history == old(contractEngines[k].history) +
          if names[k] == log.id then [LogOp(OrderOf(log, timestampOffset))] else []
      ensures Shifted(OrderOf(log, timestampOffset), log, timestampOffset)
    {
      hide ContractEngine.Valid, ContractEngine.View, ContractEngine.Follows;
      hide Holds, Contracts, Numbered;
      var direction := if log.direction == -1 then Sale else Buy;
      var k := Route(log.id);
      Pass(k, LogOp(Order(log.timestamp - timestampOffset, log.volume, log.priceOff, direction, log.kind)));
    }

    method OnComplete()
      requires Valid()
      modifies repr
      ensures Valid() && fresh(repr - old(repr)) && names == old(names) && contractEngines == old(contractEngines)
      ensures timestampOffset == old(timestampOffset)
      ensures forall k :: 0 <= k < |names| ==>
        contractEngines[k].history == old(contractEngines[k].history) + [CompleteOp]
    {
      hide ContractEngine.Valid, ContractEngine.View, ContractEngine.Follows;
      hide Holds;
      for i := 0 to lastContract
        invariant Valid() && fresh(repr - old(repr)) && names == old(names) && contractEngines == old(contractEngines)
        invariant timestampOffset == old(timestampOffset) && lastContract == |names|
        invariant forall k :: 0 <= k < i ==>
          contractEngines[k].history == old(contractEngines[k].history) + [CompleteOp]
        invariant forall k :: i <= k < |names| ==> contractEngines[k].history == old(contractEngines[k].history)
      {
        Pass(i, CompleteOp);
      }
    }

    // ------------------------------------------------------------ a whole day

    /** The contracts are those of the infos, and each has seen its own events and no others. */
    ghost predicate InStep(infos: seq<PrevTradeInfo>, alphas: seq<AlphaRecord>, logs: seq<OrderRecord>)
      reads this, repr
    {
      && Valid() && |names| == |infos| && timestampOffset == Offset(alphas)
      && forall k :: 0 <= k < |infos| ==>
        && names[k] == infos[k].id && contractEngines[k].prevClosePrice == infos[k].prevClosePrice
        && contractEngines[k].prevPosition == infos[k].prevPosition
        && contractEngines[k].history == OwnOps(infos[k].id, alphas, logs)
    }

    /** What a worker does with one day's buffers: all contracts, then all alphas, then all
        order logs, then the completion. Every contract ends as if it had been alone with its
        own events, that is, after the chronological run of its order logs and slices. */
    method FeedDay(infos: seq<PrevTradeInfo>, alphas: seq<AlphaRecord>, logs: seq<OrderRecord>)
      requires Valid() && names == [] && timestampOffset == NO_OFFSET
      requires forall i :: 0 <= i < |infos| ==> infos[i].id > 0
      requires forall i, j :: 0 <= i < j < |infos| ==> infos[i].id % MOD != infos[j].id % MOD
      requires forall i :: 0 <= i < |alphas| ==> Known(infos, alphas[i].id)
      requires forall i :: 0 <= i < |logs| ==> logs[i].volume > 0 && Known(infos, logs[i].id)
      requires forall k :: 0 <= k < |infos| ==> session.num * |Targets(infos[k].id, alphas)| <= MAX_TWAP_LENGTH
      modifies repr
      ensures Valid() && |contractEngines| == |names| == |infos| && timestampOffset == Offset(alphas)
      ensures forall k :: 0 <= k < |infos| ==>
        && names[k] == infos[k].id
        && EndsAlone(session, infos[k], alphas, logs, contractEngines[k].View(), contractEngines[k].fills)
    {
      hide ContractEngine.Valid, ContractEngine.View, ContractEngine.Follows;
      hide Holds, OwnOps, Offset, EndsAlone;
      InitAll(infos);
      InsertAlphas(infos, alphas);
      InsertOrderLogs(infos, alphas, logs);
      OnComplete();
      forall k | 0 <= k < |infos|
        ensures EndsAlone(session, infos[k], alphas, logs, contractEngines[k].View(), contractEngines[k].fills)
      {
        EndOfDay(contractEngines[k], infos[k], alphas, logs);
      }
    }

    static lemma EndOfDay(e: ContractEngine, info: PrevTradeInfo, alphas: seq<AlphaRecord>, logs: seq<OrderRecord>)
      requires e.Valid() && e.Follows()
      requires e.prevClosePrice == info.prevClosePrice && e.prevPosition == info.prevPosition
      requires e.history == OwnOps(info.id, alphas, logs) + [CompleteOp]
      ensures EndsAlone(e.session, info, alphas, logs, e.View(), e.fills)
    {
      hide Ordered, Slots, Canon, Agrees, Run, FreshRun, RunFills;
      hide TwapSchedule.ChronologicalEnd, TwapSchedule.EndsInTime, TwapSchedule.AlphaOps, TwapSchedule.LogOps;
      var targets, own := Targets(info.id, alphas), OwnLogs(info.id, Offset(alphas), logs);
      if TwapSchedule.EndsInTime(e.session, info.prevClosePrice, info.prevPosition, targets) {
        TwapSchedule.LazyDay(e.session, e.limits, info.prevClosePrice, info.prevPosition, targets, own);
      }
    }

    method InitAll(infos: seq<PrevTradeInfo>)
      requires Valid() && names == [] && timestampOffset == NO_OFFSET
      requires forall i :: 0 <= i < |infos| ==> infos[i].id > 0
      requires forall i, j :: 0 <= i < j < |infos| ==> infos[i].id % MOD != infos[j].id % MOD
      modifies this, contractPairs
      ensures fresh(repr - old(repr)) && InStep(infos, [], [])
    {
      hide ContractEngine.Valid, ContractEngine.View, ContractEngine.Follows;
      hide Holds;
      for i := 0 to |infos|
        invariant Valid() && fresh(repr - old(repr)) && timestampOffset == NO_OFFSET && |names| == i
        invariant forall k :: 0 <= k < i ==>
          && names[k] == infos[k].id && contractEngines[k].prevClosePrice == infos[k].prevClosePrice
          && contractEngines[k].prevPosition == infos[k].prevPosition && contractEngines[k].history == []
      {
        NextName(contractPairs[..], names, infos[i].id);
        var r := InitContract(infos[i]);
      }
      NothingYet();
    }

    static lemma NothingYet()
      ensures forall id :: OwnOps(id, [], []) == []
    {
    }

    method InsertAlphas(infos: seq<PrevTradeInfo>, alphas: seq<AlphaRecord>)
      requires InStep(infos, [], [])
      requires forall i :: 0 <= i < |alphas| ==> Known(infos, alphas[i].id)
      requires session.num > 0
      requires forall k :: 0 <= k < |infos| ==> session.num * |Targets(infos[k].id, alphas)| <= MAX_TWAP_LENGTH
      modifies repr
      ensures fresh(repr - old(repr)) && InStep(infos, alphas, [])
    {
      hide InStep;
      for i := 0 to |alphas|
        invariant fresh(repr - old(repr)) && InStep(infos, alphas[..i], [])
      {
        forall k | 0 <= k < |infos| && infos[k].id == alphas[i].id
          ensures session.num * |Targets(infos[k].id, alphas[..i])| + session.num <= MAX_TWAP_LENGTH
        {
          RoomForAlpha(session.num, infos[k].id, alphas, i);
        }
        assert Known(infos, alphas[i].id);
        OneAlpha(infos, alphas[..i], alphas[i]);
        assert alphas[..i] + [alphas[i]] == alphas[..i + 1];
      }
      assert alphas[..|alphas|] == alphas;
    }

    method OneAlpha(infos: seq<PrevTradeInfo>, ghost before: seq<AlphaRecord>, alpha: AlphaRecord)
      requires InStep(infos, before, []) && Known(infos, alpha.id) && session.num > 0
      requires forall k :: 0 <= k < |infos| && infos[k].id == alpha.id ==>
        session.num * |Targets(infos[k].id, before)| + session.num <= MAX_TWAP_LENGTH
      modifies repr
      ensures fresh(repr - old(repr)) && InStep(infos, before + [alpha], [])
    {
      hide TradeEngine.Valid, Offset, OwnOps, Targets;
      RoomIn(infos, before, alpha);
      OwnOpsAlpha(before, alpha);
      InsertAlpha(alpha);
    }

    lemma RoomIn(infos: seq<PrevTradeInfo>, before: seq<AlphaRecord>, alpha: AlphaRecord)
      requires InStep(infos, before, []) && Known(infos, alpha.id)
      requires forall k :: 0 <= k < |infos| && infos[k].id == alpha.id ==>
        session.num * |Targets(infos[k].id, before)| + session.num <= MAX_TWAP_LENGTH
      ensures alpha.id in names
      ensures forall k :: 0 <= k < |names| && names[k] == alpha.id ==>
        contractEngines[k].twapSize + session.num <= MAX_TWAP_LENGTH
    {
      hide ContractEngine.Valid, ContractEngine.View, ContractEngine.Follows;
      hide Holds, Offset, Targets;
      var here: nat :| here < |infos| && infos[here].id == alpha.id;
      assert names[here] == alpha.id;
      forall k | 0 <= k < |names| && names[k] == alpha.id
        ensures contractEngines[k].twapSize + session.num <= MAX_TWAP_LENGTH
      {
        TwapSizeOf(contractEngines[k], Targets(alpha.id, before));
      }
    }

    method InsertOrderLogs(infos: seq<PrevTradeInfo>, ghost alphas: seq<AlphaRecord>, logs: seq<OrderRecord>)
      requires InStep(infos, alphas, [])
      requires forall i :: 0 <= i < |logs| ==> logs[i].volume > 0 && Known(infos, logs[i].id)
      modifies repr
      ensures fresh(repr - old(repr)) && InStep(infos, alphas, logs)
    {
      hide InStep;
      for i := 0 to |logs|
        invariant fresh(repr - old(repr)) && InStep(infos, alphas, logs[..i])
      {
        assert Known(infos, logs[i].id);
        OneOrderLog(infos, alphas, logs[..i], logs[i]);
        assert logs[..i] + [logs[i]] == logs[..i + 1];
      }
      assert logs[..|logs|] == logs;
    }

    method OneOrderLog(infos: seq<PrevTradeInfo>, ghost alphas: seq<AlphaRecord>, ghost before: seq<OrderRecord>,
                       log: OrderRecord)
      requires InStep(infos, alphas, before) && log.volume > 0 && Known(infos, log.id)
      modifies repr
      ensures fresh(repr - old(repr)) && InStep(infos, alphas, before + [log])
    {
      hide ContractEngine.Valid, ContractEngine.View, ContractEngine.Follows;
      hide Holds, Offset, OwnOps;
      var here: nat :| here < |infos| && infos[here].id == log.id;
      assert names[here] == log.id;
      OwnOpsLog(alphas, before, log);
      InsertOrderLog(log);
    }

    // ----------------------------------------------------------------- output

    /** The recorded slices of the first n contracts with the given time offset. */
    ghost function Rows(n: nat): seq<TwapRow>
      requires Valid() && n <= |contractEngines|
      reads this, repr
    {
      if n == 0 then [] else Rows(n - 1) + RowsOf(names[n - 1], contractEngines[n - 1].View().twaps, timestampOffset)
    }

    /** The rows before they are sorted: all slices of all contracts, with reversed ids. */
    method CollectTwapOrders() returns (rows: seq<TwapRow>)
      requires Valid()
      ensures rows == ReverseIds(Rows(|contractEngines|))
    {
      hide TradeEngine.Valid, TradeEngine.Rows, ContractEngine.Valid, ContractEngine.View, ReverseIds, RowsOf;
      NoRows();
      rows := [];
      for i := 0 to lastContract
        invariant rows == ReverseIds(Rows(i))
      {
        RowsGrow(i);
        var own := CollectFrom(contractEngines[i], timestampOffset);
        rows := rows + own;
      }
    }

    lemma RowsGrow(i: nat)
      requires Valid() && i < |contractEngines|
      ensures var e := contractEngines[i];
        && e.Valid() && e.instrument == names[i]
        && ReverseIds(Rows(i + 1))
           == ReverseIds(Rows(i)) + ReverseIds(RowsOf(e.instrument, e.View().twaps, timestampOffset))
    {
      hide Holds, ReverseIds, RowsOf;
      hide ContractEngine.Valid, ContractEngine.View, ContractEngine.Follows;
      ReverseIdsConcat(Rows(i), RowsOf(names[i], contractEngines[i].View().twaps, timestampOffset));
    }

    /** The rows are those of contract 0, then of contract 1 and so on, one for each slice. */
    lemma {:induction false} RowsHold(n: nat, k: nat, j: nat)
      requires Valid() && k < n <= |contractEngines| && j < |contractEngines[k].View().twaps|
      ensures |Rows(k + 1)| == |Rows(k)| + |contractEngines[k].View().twaps| <= |Rows(n)| && Rows(0) == []
      ensures RowIs(Rows(n)[|Rows(k)| + j], names[k], contractEngines[k].View().twaps[j], timestampOffset)
      decreases n
    {
      hide TradeEngine.Valid, TradeEngine.Rows, ContractEngine.Valid, ContractEngine.View, RowsOf, RowIs;
      RowsNext(n - 1);
      RowsNext(k);
      if k + 1 < n {
        RowsHold(n - 1, k, j);
        assert Rows(n)[..|Rows(n - 1)|] == Rows(n - 1);
      } else {
        RowsOfAt(names[k], contractEngines[k].View().twaps, timestampOffset, j);
      }
    }

    lemma RowsNext(n: nat)
      requires Valid() && n < |contractEngines|
      ensures n < |names| && contractEngines[n].Valid() && Rows(0) == []
      ensures Rows(n + 1) == Rows(n) + RowsOf(names[n], contractEngines[n].View().twaps, timestampOffset)
    {
      hide ContractEngine.Valid, ContractEngine.View, ContractEngine.Follows, Holds, RowsOf;
    }

    lemma RowsAreWords(n: nat)
      requires Valid() && n <= |contractEngines| && forall id :: id in names ==> id < InstrumentIds.Power256(8)
      ensures WordIds(Rows(n))
    {
      hide Holds, InstrumentIds.Power256;
      hide ContractEngine.Valid, ContractEngine.View, ContractEngine.Follows;
      if n > 0 {
        RowsAreWords(n - 1);
        assert names[n - 1] in names;
      }
    }

    /** The rows in the order of their time stamps and, at equal time stamps, of their ids as
        strings; `sort` stands for the library's sort. */
    method GetTwapOrders(sort: seq<TwapRow> -> seq<TwapRow>) returns (rows: seq<TwapRow>)
      requires Valid() && (forall id :: id in names ==> id < InstrumentIds.Power256(8))
      requires forall s :: SortedCopy(sort(s), s)
      ensures multiset(rows) == multiset(Rows(|contractEngines|)) && Alphabetical(rows)
    {
      hide TradeEngine.Valid, TradeEngine.Rows, SortedCopy, Alphabetical, WordIds, ReverseIds, InstrumentIds.Power256;
      var collected := CollectTwapOrders();
      var sorted := sort(collected);
      rows := RestoreIds(sorted);
      RowsAreWords(|contractEngines|);
      assert SortedCopy(sorted, collected);
      OutputOrder(Rows(|contractEngines|), sorted);
    }

    /** Reverses the ids back. */
    static method RestoreIds(sorted: seq<TwapRow>) returns (rows: seq<TwapRow>)
      ensures rows == ReverseIds(sorted)
    {
      hide InstrumentIds.Reverse;
      rows := [];
      for i := 0 to |sorted|
        invariant rows == ReverseIds(sorted[..i])
      {
        var id := InstrumentIds.ReverseInstrumentId(sorted[i].instrumentId);
        ReverseIdsConcat(sorted[..i], [sorted[i]]);
        assert sorted[..i] + [sorted[i]] == sorted[..i + 1];
        rows := rows + [sorted[i].(instrumentId := id)];
      }
      assert sorted[..|sorted|] == sorted;
    }

    lemma NoRows()
      requires Valid()
      ensures Rows(0) == [] && ReverseIds([]) == [] && lastContract == |contractEngines|
    {
      hide ContractEngine.Valid, ContractEngine.View, ContractEngine.Follows;
    }

    /** The rows of one contract. */
    static method CollectFrom(e: ContractEngine, offset: int) returns (rows: seq<TwapRow>)
      requires e.Valid()
      ensures rows == ReverseIds(RowsOf(e.instrument, e.View().twaps, offset))
    {
      hide Ordered, Slots, Canon, Agrees, InstrumentIds.Reverse, ReverseIds, RowsOf;
      NoRowsOf(e.instrument, offset);
      var id := InstrumentIds.ReverseInstrumentId(e.instrument);
      ghost var twaps := e.View().twaps;
      rows := [];
      for j := 0 to e.twapSize
        invariant rows == ReverseIds(RowsOf(e.instrument, twaps[..j], offset))
      {
        var o := e.twapOrders[j];
        var direction := if o.direction == Sale then -1 else 1;
        RowsSnoc(e.instrument, twaps[..j], o, offset);
        assert twaps[..j] + [o] == twaps[..j + 1];
        rows := rows + [TwapRow(id, o.timestamp + offset, direction, o.volume, o.price)];
      }
      assert twaps[..|twaps|] == twaps;
    }

    static lemma NoRowsOf(id: nat, offset: int)
      ensures ReverseIds(RowsOf(id, [], offset)) == []
    {
    }

    static lemma RowsSnoc(id: nat, twaps: seq<Order>, o: Order, offset: int)
      ensures ReverseIds(RowsOf(id, twaps + [o], offset))
           == ReverseIds(RowsOf(id, twaps, offset)) + [ReverseId(RowOf(id, o, offset))]
    {
      assert RowsOf(id, twaps + [o], offset) == RowsOf(id, twaps, offset) + [RowOf(id, o, offset)];
      ReverseIdsConcat(RowsOf(id, twaps, offset), [RowOf(id, o, offset)]);
    }

    static lemma TwapSizeOf(e: ContractEngine, targets: seq<Alpha>)
      requires e.Valid() && e.Follows() && e.history == TwapSchedule.AlphaOps(targets) + []
      ensures e.twapSize <= e.session.num * |targets|
    {
      hide Ordered, Slots, Canon, Agrees, Run, FreshRun, RunFills;
      var st := Initial(e.prevClosePrice, e.prevPosition);
      TwapCount(e.session, e.limits, st, TwapSchedule.AlphaOps(targets));
      assert TwapSchedule.AlphaOps(targets) + [] == TwapSchedule.AlphaOps(targets);
    }
  }

  /** A contract's state at the end of the day is that of its own events alone, run in the order
      they came in; book and account are those of the chronological run; and if no two of its
      orders ever tie, its single fills are those of its run. */
  ghost predicate EndsAlone(s: Session, info: PrevTradeInfo, alphas: seq<AlphaRecord>, logs: seq<OrderRecord>,
                            end: State, fills: seq<Fill>)
    requires s.num > 0
  {
    var targets, own := Targets(info.id, alphas), OwnLogs(info.id, Offset(alphas), logs);
    var l, st := InitialLimits(info.prevClosePrice), Initial(info.prevClosePrice, info.prevPosition);
    var day := TwapSchedule.Day(targets, own);
    && end == Run(s, l, st, day)
    && (TwapSchedule.EndsInTime(s, info.prevClosePrice, info.prevPosition, targets) ==>
          TwapSchedule.ChronologicalEnd(s, l, info.prevClosePrice, info.prevPosition, targets, own, end))
    && (FreshRun(s, l, st, day) ==> fills == RunFills(s, l, st, day))
  }

  lemma TargetsSnoc(alphas: seq<AlphaRecord>, alpha: AlphaRecord)
    ensures var offset := Offset(alphas + [alpha]);
      && offset == (if Offset(alphas) == NO_OFFSET then alpha.timestamp else Offset(alphas))
      && forall id :: Targets(id, alphas + [alpha])
           == Targets(id, alphas) + if alpha.id == id then [Alpha(alpha.timestamp - offset, alpha.targetVolume)] else []
  {
    assert (alphas + [alpha])[..|alphas|] == alphas;
  }

  lemma AlphaOpsSnoc(alphas: seq<Alpha>, alpha: Alpha)
    ensures TwapSchedule.AlphaOps(alphas + [alpha]) == TwapSchedule.AlphaOps(alphas) + [AlphaOp(alpha)]
  {
  }

  lemma OwnOpsAlpha(before: seq<AlphaRecord>, alpha: AlphaRecord)
    ensures var offset := if Offset(before) == NO_OFFSET then alpha.timestamp else Offset(before);
      var op := AlphaOp(Alpha(alpha.timestamp - offset, alpha.targetVolume));
      && Offset(before + [alpha]) == offset
      && forall id ::
           OwnOps(id, before + [alpha], []) == OwnOps(id, before, []) + (if alpha.id == id then [op] else [])
  {
    hide Targets, Offset, TwapSchedule.AlphaOps;
    TargetsSnoc(before, alpha);
    var shifted := Alpha(alpha.timestamp - Offset(before + [alpha]), alpha.targetVolume);
    forall id
      ensures OwnOps(id, before + [alpha], []) ==
        OwnOps(id, before, []) + (if alpha.id == id then [AlphaOp(shifted)] else [])
    {
      AlphaOpsSnoc(Targets(id, before), shifted);
      assert Targets(id, before) + [] == Targets(id, before);
    }
  }

  lemma OwnOpsLog(alphas: seq<AlphaRecord>, before: seq<OrderRecord>, log: OrderRecord)
    ensures var op := LogOp(OrderOf(log, Offset(alphas)));
      forall id ::
        OwnOps(id, alphas, before + [log]) == OwnOps(id, alphas, before) + (if log.id == id then [op] else [])
  {
    hide Targets, Offset, TwapSchedule.AlphaOps;
    assert (before + [log])[..|before|] == before;
    var order := OrderOf(log, Offset(alphas));
    forall id
      ensures OwnOps(id, alphas, before + [log]) ==
        OwnOps(id, alphas, before) + (if log.id == id then [LogOp(order)] else [])
    {
      LogOpsConcat(OwnLogs(id, Offset(alphas), before), if log.id == id then [order] else []);
    }
  }

  lemma LogOpsConcat(a: seq<Order>, b: seq<Order>)
    ensures TwapSchedule.LogOps(a + b) == TwapSchedule.LogOps(a) + TwapSchedule.LogOps(b)
    ensures |b| == 1 ==> TwapSchedule.LogOps(b) == [LogOp(b[0])]
  {
  }

  lemma RoomForAlpha(num: nat, id: nat, alphas: seq<AlphaRecord>, i: nat)
    requires i < |alphas| && alphas[i].id == id && num * |Targets(id, alphas)| <= MAX_TWAP_LENGTH
    ensures num * |Targets(id, alphas[..i])| + num <= MAX_TWAP_LENGTH
  {
    var n := |Targets(id, alphas[..i])|;
    TargetsSnoc(alphas[..i], alphas[i]);
    assert alphas[..i] + [alphas[i]] == alphas[..i + 1];
    TargetsGrow(id, alphas, i + 1);
    MulMono(num, n + 1, |Targets(id, alphas)|);
    MulNext(num, n);
  }

  /** ps are the places of id in a list of ids, in order. */
  ghost predicate Places(ids: seq<nat>, id: nat, ps: seq<nat>) {
    && (forall i :: 0 <= i < |ps| ==> ps[i] < |ids| && ids[ps[i]] == id)
    && (forall i, j :: 0 <= i < j < |ps| ==> ps[i] < ps[j])
    && (forall k :: 0 <= k < |ids| && ids[k] == id ==> k in ps)
  }

  lemma PlacesNext(ids: seq<nat>, id: nat, ps: seq<nat>, last: nat)
    requires Places(ids, id, ps)
    ensures Places(ids + [last], id, if last == id then ps + [|ids|] else ps)
  {
    var all, next := ids + [last], if last == id then ps + [|ids|] else ps;
    forall k | 0 <= k < |all| && all[k] == id ensures k in next {
      if k < |ids| {
        assert ids[k] == id;
      } else {
        assert next[|ps|] == k;
      }
    }
  }

  function AlphaIds(alphas: seq<AlphaRecord>): seq<nat> {
    seq(|alphas|, i requires 0 <= i < |alphas| => alphas[i].id)
  }

  function OrderIds(logs: seq<OrderRecord>): seq<nat> {
    seq(|logs|, i requires 0 <= i < |logs| => logs[i].id)
  }

  /** The alpha is what the record says, with the offset taken off its time stamp. */
  ghost predicate ShiftedAlpha(a: Alpha, r: AlphaRecord, offset: int) {
    a.timestamp + offset == r.timestamp && a.targetVolume == r.targetVolume
  }

  /** The alphas are exactly those recorded for id, in their order. */
  ghost predicate AlphasOf(own: seq<Alpha>, id: nat, alphas: seq<AlphaRecord>, offset: int, ps: seq<nat>) {
    && Places(AlphaIds(alphas), id, ps) && |own| == |ps|
    && forall i :: 0 <= i < |ps| ==> ps[i] < |alphas| && ShiftedAlpha(own[i], alphas[ps[i]], offset)
  }

  lemma AlphasOfNext(own: seq<Alpha>, id: nat, alphas: seq<AlphaRecord>, offset: int, ps: seq<nat>, last: AlphaRecord)
    requires AlphasOf(own, id, alphas, offset, ps)
    ensures var next := Alpha(last.timestamp - offset, last.targetVolume);
      if last.id == id then AlphasOf(own + [next], id, alphas + [last], offset, ps + [|alphas|])
      else AlphasOf(own, id, alphas + [last], offset, ps)
  {
    var next, all := Alpha(last.timestamp - offset, last.targetVolume), alphas + [last];
    assert ShiftedAlpha(next, last, offset);
    hide Places, ShiftedAlpha, AlphaIds;
    PlacesNext(AlphaIds(alphas), id, ps, last.id);
    IdsSnoc(alphas, last);
    var own', ps' := if last.id == id then own + [next] else own, if last.id == id then ps + [|alphas|] else ps;
    forall i | 0 <= i < |ps'| ensures ps'[i] < |all| && ShiftedAlpha(own'[i], all[ps'[i]], offset) {
      if i < |ps| {
        assert own'[i] == own[i] && ps'[i] == ps[i] && all[ps[i]] == alphas[ps[i]];
      }
    }
  }

  lemma IdsSnoc(alphas: seq<AlphaRecord>, last: AlphaRecord)
    ensures AlphaIds(alphas + [last]) == AlphaIds(alphas) + [last.id] && |AlphaIds(alphas)| == |alphas|
  {
  }

  /** A contract is given exactly its own alphas, in their order, all of them shifted by the
      first one's time stamp, so that adding it on output restores their times. */
  lemma {:induction false} OffsetIsUndone(id: nat, alphas: seq<AlphaRecord>)
    requires alphas != [] ==> alphas[0].timestamp != NO_OFFSET
    ensures alphas != [] ==> Offset(alphas) == alphas[0].timestamp
    ensures exists ps :: AlphasOf(Targets(id, alphas), id, alphas, Offset(alphas), ps)
  {
    hide AlphasOf;
    if alphas == [] {
      NoAlphasYet(id, Offset(alphas));
      assert AlphasOf(Targets(id, alphas), id, alphas, Offset(alphas), []);
    } else {
      var n := |alphas| - 1;
      OffsetIsUndone(id, alphas[..n]);
      var ps :| AlphasOf(Targets(id, alphas[..n]), id, alphas[..n], Offset(alphas[..n]), ps);
      if n == 0 {
        NoAlphasYet(id, Offset(alphas));
        ps := [];
      }
      AlphasOfNext(Targets(id, alphas[..n]), id, alphas[..n], Offset(alphas), ps, alphas[n]);
      var before := Targets(id, alphas[..n]);
      assert alphas == alphas[..n] + [alphas[n]] && before + [] == before;
      if alphas[n].id == id {
        assert AlphasOf(Targets(id, alphas), id, alphas, Offset(alphas), ps + [n]);
      } else {
        assert AlphasOf(Targets(id, alphas), id, alphas, Offset(alphas), ps);
      }
    }
  }

  lemma NoAlphasYet(id: nat, offset: int)
    ensures AlphasOf([], id, [], offset, [])
  {
  }

  /** The order is what the record says, with the offset taken off its time stamp; -1 is a sale. */
  ghost predicate Shifted(o: Order, r: OrderRecord, offset: int) {
    && o.timestamp + offset == r.timestamp
    && o.volume == r.volume && o.price == r.priceOff && o.kind == r.kind
    && (o.direction == Sale <==> r.direction == -1)
  }

  /** The orders are exactly those recorded for id, in their order. */
  ghost predicate OrdersOf(own: seq<Order>, id: nat, logs: seq<OrderRecord>, offset: int, ps: seq<nat>) {
    && Places(OrderIds(logs), id, ps) && |own| == |ps|
    && forall i :: 0 <= i < |ps| ==> ps[i] < |logs| && Shifted(own[i], logs[ps[i]], offset)
  }

  lemma OrdersOfNext(own: seq<Order>, id: nat, logs: seq<OrderRecord>, offset: int, ps: seq<nat>, last: OrderRecord)
    requires OrdersOf(own, id, logs, offset, ps)
    ensures if last.id == id then OrdersOf(own + [OrderOf(last, offset)], id, logs + [last], offset, ps + [|logs|])
            else OrdersOf(own, id, logs + [last], offset, ps)
  {
    var next, all := OrderOf(last, offset), logs + [last];
    assert Shifted(next, last, offset);
    hide Places, Shifted, OrderOf, OrderIds;
    PlacesNext(OrderIds(logs), id, ps, last.id);
    LogIdsSnoc(logs, last);
    var own', ps' := if last.id == id then own + [next] else own, if last.id == id then ps + [|logs|] else ps;
    forall i | 0 <= i < |ps'| ensures ps'[i] < |all| && Shifted(own'[i], all[ps'[i]], offset) {
      if i < |ps| {
        assert own'[i] == own[i] && ps'[i] == ps[i] && all[ps[i]] == logs[ps[i]];
      }
    }
  }

  lemma LogIdsSnoc(logs: seq<OrderRecord>, last: OrderRecord)
    ensures OrderIds(logs + [last]) == OrderIds(logs) + [last.id] && |OrderIds(logs)| == |logs|
  {
  }

  lemma NoOrdersYet(id: nat, offset: int)
    ensures OrdersOf([], id, [], offset, [])
  {
  }

  /** A contract is given exactly its own order logs, in their order. */
  lemma {:induction false} OrdersOfContract(id: nat, offset: int, logs: seq<OrderRecord>)
    ensures exists ps :: OrdersOf(OwnLogs(id, offset, logs), id, logs, offset, ps)
  {
    hide OrdersOf, OrderOf;
    if logs == [] {
      NoOrdersYet(id, offset);
      assert OrdersOf(OwnLogs(id, offset, logs), id, logs, offset, []);
    } else {
      var n := |logs| - 1;
      OrdersOfContract(id, offset, logs[..n]);
      var ps :| OrdersOf(OwnLogs(id, offset, logs[..n]), id, logs[..n], offset, ps);
      OrdersOfNext(OwnLogs(id, offset, logs[..n]), id, logs[..n], offset, ps, logs[n]);
      var before := OwnLogs(id, offset, logs[..n]);
      assert logs == logs[..n] + [logs[n]] && before + [] == before;
      if logs[n].id == id {
        assert OrdersOf(OwnLogs(id, offset, logs), id, logs, offset, ps + [n]);
      } else {
        assert OrdersOf(OwnLogs(id, offset, logs), id, logs, offset, ps);
      }
    }
  }

  /** Side and type are packed into one byte on the way into the engine; for the types of the
      exchange the engine reads back what the record says. */
  lemma ReadBack(o: Order, r: OrderRecord, offset: int)
    requires Shifted(o, r, offset) && r.kind < 8
    ensures var b := EncodeDirectionAndType(if r.direction == -1 then Sale else Buy, r.kind as bv8);
      && (b & TYPE_MASK) as nat == o.kind
      && ((b & DIRECTION_MASK) >> 3 == 0 <==> o.direction == Sale)
      && ((b & DIRECTION_MASK) >> 3 == 1 <==> o.direction == Buy)
  {
    var d, kind := if r.direction == -1 then Sale else Buy, r.kind as bv8;
    EncodingRoundTrip(d, kind);
  }

  lemma {:induction false} TargetsGrow(id: nat, alphas: seq<AlphaRecord>, k: nat)
    requires k <= |alphas|
    ensures |Targets(id, alphas[..k])| <= |Targets(id, alphas)|
  {
    if k == |alphas| {
      assert alphas[..k] == alphas;
    } else {
      TargetsGrow(id, alphas[..|alphas| - 1], k);
      assert alphas[..|alphas| - 1][..k] == alphas[..k];
    }
  }

  /** The number found is that of an earlier contract or the next one. */
  lemma NextNumber(table: seq<Pair>, last: nat, id: nat)
    requires table != [] && Numbered(table, last) && id > 0
    ensures var r := LookUp(table, last, id);
      r.Found? ==> Numbered(r.table, r.last) && |r.table| == |table|
                   && (if r.index == last then r.last == last + 1 else r.index < last == r.last)
  {
  }

  lemma NextName(table: seq<Pair>, names: seq<nat>, id: nat)
    requires Holds(table, names) && id > 0
    requires forall k :: 0 <= k < |names| ==> names[k] % |table| != id % |table|
    ensures var r := LookUp(table, |names|, id);
      r.Found? && r.index == |names| && r.last == |names| + 1 && Holds(r.table, names + [id])
  {
    var ids := (set k | 0 <= k < |names| :: names[k]) + {id};
    NamesDiffer(table, names);
    assert DistinctResidues(ids, |table|) by { ResiduesOfNames(table, names, id, ids); }
    LookUpHolds(table, names, ids, id);
  }

  lemma ResiduesOfNames(table: seq<Pair>, names: seq<nat>, id: nat, ids: set<nat>)
    requires Holds(table, names)
    requires forall k :: 0 <= k < |names| ==> names[k] % |table| != id % |table|
    requires forall x :: x in ids ==> x == id || x in names
    ensures DistinctResidues(ids, |table|)
  {
    forall x, y | x in ids && y in ids && x % |table| == y % |table| ensures x == y {
      if x != id && y != id {
        var k :| 0 <= k < |names| && names[k] == x;
        var l :| 0 <= l < |names| && names[l] == y;
        assert table[names[k] % |table|] == (x, k) && table[names[l] % |table|] == (y, l);
      }
    }
  }

  lemma KnownName(table: seq<Pair>, names: seq<nat>, id: nat)
    requires Holds(table, names) && id in names
    ensures var r := LookUp(table, |names|, id);
      r.Found? && r.table == table && r.last == |names| && r.index < |names| && names[r.index] == id
  {
    var k :| 0 <= k < |names| && names[k] == id;
    assert table[names[k] % |table|] == (id, k);
  }

  lemma NamesDiffer(table: seq<Pair>, names: seq<nat>)
    requires Holds(table, names)
    ensures forall k, l :: 0 <= k < l < |names| ==> names[k] != names[l]
  {
    forall k, l | 0 <= k < l < |names| ensures names[k] != names[l] {
      assert table[names[k] % |table|].1 == k && table[names[l] % |table|].1 == l;
    }
  }
}
