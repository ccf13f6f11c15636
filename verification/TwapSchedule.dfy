/** The TWAP orders: how a target change is cut into slices, when the recorded slices are in
    time order, and why injecting them lazily, only when an order log or the completion passes
    their time, is the same as merging them with the order logs beforehand. */
module TwapSchedule {
  import opened Modular
  import opened Orders
  import opened Matching
  import opened ContractSpec
  import opened Accounting

  // ------------------------------------------------------------------ slices

  /** Every slice is the floor or the ceiling of the even share, and the first k slices
      together are the floor of k shares; n of them are the whole difference. */
  lemma SlicesAreEven(s: Session, alpha: Alpha, diff: int, k: nat)
    requires s.num > 0 && k <= s.num
    ensures forall i :: 0 <= i < k ==>
      var v := Slices(s, alpha, diff, k)[i].volume;
      v == Abs(diff) / s.num || (v == Abs(diff) / s.num + 1 && Abs(diff) % s.num != 0)
    ensures Abs(SignedSum(Slices(s, alpha, diff, k))) == Abs(diff) * k / s.num
    ensures SignedSum(Slices(s, alpha, diff, s.num)) == diff
  {
    forall i | 0 <= i < k ensures var v := Slices(s, alpha, diff, k)[i].volume;
      v == Abs(diff) / s.num || (v == Abs(diff) / s.num + 1 && Abs(diff) % s.num != 0)
    {
      SliceBounds(Abs(diff), s.num, i);
    }
    SlicesSum(s, alpha, diff, k);
    DivMonotonic(0, Abs(diff) * k, s.num);
    SlicesSum(s, alpha, diff, s.num);
    DivCancels(Abs(diff), s.num);
  }

  /** Adding diff to a number adds the floor or the ceiling of diff / n to its quotient. */
  lemma QuotientStep(a: nat, diff: nat, n: nat)
    requires n > 0
    ensures var v := (a + diff) / n - a / n;
      v == diff / n || (v == diff / n + 1 && diff % n != 0)
  {
    var q, r := diff / n, diff % n;
    var qa, ra := a / n, a % n;
    DivMod(a, n);
    DivMod(diff, n);
    MulAdd(n, qa, q);
    if ra + r < n {
      DivUnique(a + diff, n, qa + q, ra + r);
    } else {
      MulAdd(n, qa + q, 1);
      DivUnique(a + diff, n, qa + q + 1, ra + r - n);
    }
  }

  lemma SliceBounds(diff: nat, n: nat, i: nat)
    requires n > 0
    ensures var v := SliceVolume(diff, n, i);
      v == diff / n || (v == diff / n + 1 && diff % n != 0)
  {
    MulAdd(diff, i, 1);
    QuotientStep(diff * i, diff, n);
  }

  /** An alpha that changes the target records one slice per session, on the side of the change,
      the sessions' length apart, unpriced and marked as ours; nothing else is touched. */
  lemma AlphaIs(s: Session, st: State, alpha: Alpha)
    requires s.num > 0
    ensures var st' := InsertAlpha(s, st, alpha);
      && st'.book == st.book && st'.head == st.head && st'.target == alpha.targetVolume
      && if alpha.targetVolume == st.target then st'.twaps == st.twaps
         else
           && |st'.twaps| == |st.twaps| + s.num && st.twaps <= st'.twaps
           && forall i :: 0 <= i < s.num ==>
                var o := st'.twaps[|st.twaps| + i];
                && o.timestamp == alpha.timestamp + i * s.length * 1000
                && o.price == 0 && o.kind == MY_CONTRACT
                && (o.direction == Buy <==> alpha.targetVolume > st.target)
  {
    hide SliceVolume;
  }

  /** The target is that of the last alpha. */
  lemma {:induction false} TargetIsLast(s: Session, l: Limits, st: State, ops: seq<Op>)
    requires s.num > 0
    ensures var target := Run(s, l, st, ops).target;
      && ((forall i :: 0 <= i < |ops| ==> !ops[i].AlphaOp?) ==> target == st.target)
      && forall i :: 0 <= i < |ops| && ops[i].AlphaOp? && (forall j :: i < j < |ops| ==> !ops[j].AlphaOp?) ==>
           target == ops[i].alpha.targetVolume
    decreases |ops|
  {
    if ops != [] {
      hide Inject, Place, Slices;
      var st', rest := Step(s, l, st, ops[0]), ops[1..];
      match ops[0] {
        case AlphaOp(alpha) => AlphaIs(s, st, alpha);
        case CompleteOp => InjectTarget(st, MAX_INT);
        case LogOp(o) => InjectTarget(st, o.timestamp);
      }
      TargetIsLast(s, l, st', rest);
      forall i | 0 <= i < |ops| && ops[i].AlphaOp? && (forall j :: i < j < |ops| ==> !ops[j].AlphaOp?)
        ensures Run(s, l, st, ops).target == ops[i].alpha.targetVolume
      {
        forall j | 0 <= j < |rest| && i - 1 < j ensures !rest[j].AlphaOp? {
          assert rest[j] == ops[j + 1];
        }
        if i > 0 {
          assert rest[i - 1] == ops[i];
        }
      }
      if forall i :: 0 <= i < |ops| ==> !ops[i].AlphaOp? {
        assert forall j :: 0 <= j < |rest| ==> rest[j] == ops[j + 1];
      }
    }
  }

  lemma {:induction false} InjectTarget(st: State, t: int)
    ensures Inject(st, t).target == st.target
    decreases |st.twaps| - st.head
  {
    hide Match, AddOrder;
    if st.head < |st.twaps| && st.twaps[st.head].timestamp < t {
      InjectTarget(InjectOne(st), t);
    }
  }

  /** Injection gives a slice its price, once, and nothing else changes anything about a slice. */
  lemma {:induction false} RecordedSlicesStay(s: Session, l: Limits, st: State, ops: seq<Op>)
    requires s.num > 0
    ensures var end := Run(s, l, st, ops);
      && |st.twaps| <= |end.twaps| && st.head <= end.head
      && forall i :: 0 <= i < |st.twaps| ==>
           end.twaps[i] ==
             if i < st.head || end.head <= i then st.twaps[i] else st.twaps[i].(price := end.twaps[i].price)
    decreases |ops|
  {
    if ops != [] {
      hide Inject, Place, Slices;
      var st' := Step(s, l, st, ops[0]);
      match ops[0] {
        case AlphaOp(_) =>
        case CompleteOp => InjectStays(st, MAX_INT);
        case LogOp(o) => InjectStays(st, o.timestamp);
      }
      RecordedSlicesStay(s, l, st', ops[1..]);
    }
  }

  lemma {:induction false} InjectStays(st: State, t: int)
    ensures var end := Inject(st, t);
      && |st.twaps| == |end.twaps| && st.head <= end.head
      && forall i :: 0 <= i < |st.twaps| ==>
           end.twaps[i] ==
             if i < st.head || end.head <= i then st.twaps[i] else st.twaps[i].(price := end.twaps[i].price)
    decreases |st.twaps| - st.head
  {
    hide Match, AddOrder;
    if st.head < |st.twaps| && st.twaps[st.head].timestamp < t {
      InjectStays(InjectOne(st), t);
    }
  }

  // -------------------------------------------------------------- time order

  ghost predicate InTimeOrder(s: seq<Order>) {
    forall i, j :: 0 <= i < j < |s| ==> s[i].timestamp <= s[j].timestamp
  }

  function InsertAlphas(s: Session, st: State, alphas: seq<Alpha>): State
    requires s.num > 0
  {
    if alphas == [] then st
    else InsertAlpha(s, InsertAlphas(s, st, alphas[..|alphas| - 1]), alphas[|alphas| - 1])
  }

  function TargetAfter(target: int, alphas: seq<Alpha>): int {
    if alphas == [] then target else alphas[|alphas| - 1].targetVolume
  }

  /** The alphas that change the target. */
  function Changes(target: int, alphas: seq<Alpha>): seq<Alpha>
  {
    if alphas == [] then []
    else
      var before, last := alphas[..|alphas| - 1], alphas[|alphas| - 1];
      Changes(target, before) + if last.targetVolume == TargetAfter(target, before) then [] else [last]
  }

  /** How much later than its alpha slice i is. */
  function Offset(s: Session, i: nat): int {
    i * s.length * 1000
  }

  /** The last slice of one change is not later than the first slice of the next. */
  predicate Spaced(s: Session, changes: seq<Alpha>)
    requires s.num > 0
  {
    forall i {:trigger changes[i]} :: 0 < i < |changes| ==>
      changes[i - 1].timestamp + Offset(s, s.num - 1) <= changes[i].timestamp
  }

  /** The recorded slices end with those of the last change and are ordered iff the changes
      are spaced. */
  ghost predicate Follows(s: Session, twaps: seq<Order>, changes: seq<Alpha>)
    requires s.num > 0
  {
    && (changes == [] <==> twaps == [])
    && (changes != [] ==> twaps[|twaps| - 1].timestamp == changes[|changes| - 1].timestamp + Offset(s, s.num - 1))
    && (InTimeOrder(twaps) <==> Spaced(s, changes))
  }

  lemma FollowsChange(s: Session, twaps: seq<Order>, changes: seq<Alpha>, last: Alpha, diff: int)
    requires s.num > 0 && s.length >= 0 && Follows(s, twaps, changes)
    ensures Follows(s, twaps + Slices(s, last, diff, s.num), changes + [last])
  {
    hide Slices, Offset, Spaced, InTimeOrder;
    BlockTimes(s, last, diff);
    AppendInOrder(twaps, Slices(s, last, diff, s.num));
    SpacedSnoc(s, changes, last);
  }

  lemma LastAlpha(s: Session, st: State, target: int, before: seq<Alpha>, last: Alpha)
    requires s.num > 0
    ensures InsertAlphas(s, st, before + [last]) == InsertAlpha(s, InsertAlphas(s, st, before), last)
    ensures Changes(target, before + [last])
         == Changes(target, before) + if last.targetVolume == TargetAfter(target, before) then [] else [last]
    ensures TargetAfter(target, before + [last]) == last.targetVolume
  {
    assert (before + [last])[..|before|] == before;
  }

  lemma NothingFollows(s: Session)
    requires s.num > 0
    ensures Follows(s, [], [])
  {
  }

  lemma {:induction false} SlicesFollowChanges(s: Session, prevClose: int, prevPosition: int, alphas: seq<Alpha>)
    requires s.num > 0 && s.length >= 0
    ensures var st := InsertAlphas(s, Initial(prevClose, prevPosition), alphas);
      st.target == TargetAfter(prevPosition, alphas) && Follows(s, st.twaps, Changes(prevPosition, alphas))
  {
    hide Follows;
    var st0 := Initial(prevClose, prevPosition);
    if alphas == [] {
      NothingFollows(s);
    } else {
      hide Slices, InsertAlphas, Changes, TargetAfter;
      var before, last := alphas[..|alphas| - 1], alphas[|alphas| - 1];
      assert alphas == before + [last];
      SlicesFollowChanges(s, prevClose, prevPosition, before);
      LastAlpha(s, st0, prevPosition, before, last);
      var st, changes := InsertAlphas(s, st0, before), Changes(prevPosition, before);
      if last.targetVolume != st.target {
        FollowsChange(s, st.twaps, changes, last, last.targetVolume - st.target);
      } else {
        assert changes + [] == changes;
      }
    }
  }

  lemma OffsetMonotonic(s: Session, i: nat, j: nat)
    requires s.length >= 0 && i <= j
    ensures Offset(s, i) <= Offset(s, j)
  {
    MulMono(s.length, i, j);
  }

  lemma BlockTimes(s: Session, alpha: Alpha, diff: int)
    requires s.num > 0 && s.length >= 0
    ensures var b := Slices(s, alpha, diff, s.num);
      && InTimeOrder(b) && b[0].timestamp == alpha.timestamp
      && b[s.num - 1].timestamp == alpha.timestamp + Offset(s, s.num - 1)
  {
    hide SliceVolume;
    var b := Slices(s, alpha, diff, s.num);
    assert forall i :: 0 <= i < s.num ==> b[i].timestamp == alpha.timestamp + Offset(s, i);
    hide Offset, Slices;
    forall i, j | 0 <= i < j < s.num ensures b[i].timestamp <= b[j].timestamp {
      OffsetMonotonic(s, i, j);
    }
    assert Offset(s, 0) == 0 by { OffsetZero(s); }
  }

  lemma OffsetZero(s: Session)
    ensures Offset(s, 0) == 0
  {
  }

  lemma AppendInOrder(a: seq<Order>, b: seq<Order>)
    requires b != [] && InTimeOrder(b)
    ensures InTimeOrder(a + b) <==> InTimeOrder(a) && (a != [] ==> a[|a| - 1].timestamp <= b[0].timestamp)
  {
    var c := a + b;
    if InTimeOrder(c) {
      forall i, j | 0 <= i < j < |a| ensures a[i].timestamp <= a[j].timestamp {
        assert c[i] == a[i] && c[j] == a[j];
      }
      assert a != [] ==> c[|a| - 1] == a[|a| - 1] && c[|a|] == b[0];
    }
  }

  lemma SpacedSnoc(s: Session, changes: seq<Alpha>, last: Alpha)
    requires s.num > 0
    ensures Spaced(s, changes + [last])
       <==> Spaced(s, changes)
            && (changes != [] ==> changes[|changes| - 1].timestamp + Offset(s, s.num - 1) <= last.timestamp)
  {
    var c := changes + [last];
    if Spaced(s, c) {
      forall i {:trigger changes[i]} | 0 < i < |changes|
        ensures changes[i - 1].timestamp + Offset(s, s.num - 1) <= changes[i].timestamp
      {
        assert c[i] == changes[i] && c[i - 1] == changes[i - 1];
      }
      assert changes != [] ==> c[|changes|] == last && c[|changes| - 1] == changes[|changes| - 1];
    }
  }

  /** The recorded slices are in time order exactly if the target changes are far enough apart. */
  lemma SlicesInTimeOrderIff(s: Session, prevClose: int, prevPosition: int, alphas: seq<Alpha>)
    requires s.num > 0 && s.length >= 0
    ensures InTimeOrder(InsertAlphas(s, Initial(prevClose, prevPosition), alphas).twaps)
       <==> Spaced(s, Changes(prevPosition, alphas))
  {
    SlicesFollowChanges(s, prevClose, prevPosition, alphas);
  }

  // ------------------------------------------------------------ lazy and eager

  datatype Event = LogEvent(order: Order) | SliceEvent(order: Order)

  /** The two streams merged; at equal times order logs go first. */
  function Merge(logs: seq<Order>, slices: seq<Order>): seq<Event>
    decreases |logs| + |slices|
  {
    if slices != [] && (logs == [] || slices[0].timestamp < logs[0].timestamp)
    then [SliceEvent(slices[0])] + Merge(logs, slices[1..])
    else if logs != [] then [LogEvent(logs[0])] + Merge(logs[1..], slices)
    else []
  }

  function PlaceSlice(b: Book, slice: Order): Book {
    var o := slice.(price := BasePrice(b, slice.direction));
    Match(if o.volume != 0 then AddOrder(b, o) else b)
  }

  /** All events in the given order. */
  function Eager(l: Limits, b: Book, events: seq<Event>): Book
    decreases |events|
  {
    if events == [] then b
    else
      var e := events[0];
      Eager(l, if e.LogEvent? then Place(l, b, e.order) else PlaceSlice(b, e.order), events[1..])
  }

  /** The slices among the events, each at the base price of the book it finds. */
  function PricedSlices(l: Limits, b: Book, events: seq<Event>): seq<Order>
    decreases |events|
  {
    if events == [] then []
    else
      var e := events[0];
      if e.LogEvent? then PricedSlices(l, Place(l, b, e.order), events[1..])
      else
        [e.order.(price := BasePrice(b, e.order.direction))] + PricedSlices(l, PlaceSlice(b, e.order), events[1..])
  }

  /** The engine is fed the order logs and injects the slices when it must. */
  function Feed(l: Limits, st: State, logs: seq<Order>): State
    decreases |logs|
  {
    if logs == [] then st else Feed(l, InsertOrderLog(l, st, logs[0]), logs[1..])
  }

  function AlphaOps(alphas: seq<Alpha>): (ops: seq<Op>)
    ensures |ops| == |alphas|
  {
    seq(|alphas|, i requires 0 <= i < |alphas| => AlphaOp(alphas[i]))
  }

  lemma {:induction false} RunIsInsertAlphas(s: Session, l: Limits, st: State, alphas: seq<Alpha>)
    requires s.num > 0
    ensures Run(s, l, st, AlphaOps(alphas)) == InsertAlphas(s, st, alphas)
  {
    hide InsertAlpha;
    if alphas != [] {
      var before, last := alphas[..|alphas| - 1], alphas[|alphas| - 1];
      RunIsInsertAlphas(s, l, st, before);
      assert AlphaOps(alphas) == AlphaOps(before) + [AlphaOp(last)];
      RunSnoc(s, l, st, AlphaOps(before), AlphaOp(last));
    }
  }

  function LogOps(logs: seq<Order>): (ops: seq<Op>)
    ensures |ops| == |logs|
  {
    seq(|logs|, i requires 0 <= i < |logs| => LogOp(logs[i]))
  }

  lemma {:induction false} RunIsFeed(s: Session, l: Limits, st: State, logs: seq<Order>)
    requires s.num > 0
    ensures Run(s, l, st, LogOps(logs) + [CompleteOp]) == Complete(Feed(l, st, logs))
    decreases |logs|
  {
    hide Complete, InsertOrderLog;
    var ops := LogOps(logs) + [CompleteOp];
    if logs == [] {
      assert ops[1..] == [];
      assert Run(s, l, Step(s, l, st, ops[0]), ops[1..]) == Step(s, l, st, ops[0]);
    } else {
      assert ops[1..] == LogOps(logs[1..]) + [CompleteOp];
      RunIsFeed(s, l, InsertOrderLog(l, st, logs[0]), logs[1..]);
    }
  }

  /** Feeding the order logs and completing leaves the same book, account and tape as running
      through the merged streams, and every slice has been injected. */
  lemma {:induction false} LazyIsEager(l: Limits, st: State, logs: seq<Order>)
    requires st.head <= |st.twaps|
    requires forall i :: st.head <= i < |st.twaps| ==> st.twaps[i].timestamp < MAX_INT
    ensures var end := Complete(Feed(l, st, logs));
      && end.book == Eager(l, st.book, Merge(logs, st.twaps[st.head..]))
      && end.head == |end.twaps| == |st.twaps|
      && end.twaps == st.twaps[..st.head] + PricedSlices(l, st.book, Merge(logs, st.twaps[st.head..]))
    decreases |logs| + |st.twaps| - st.head
  {
    hide Match, AddOrder, Place;
    var slices := st.twaps[st.head..];
    var events := Merge(logs, slices);
    if slices != [] && (logs == [] || slices[0].timestamp < logs[0].timestamp) {
      var st' := InjectOne(st);
      assert slices[1..] == st'.twaps[st'.head..];
      assert events[1..] == Merge(logs, slices[1..]);
      assert st'.book == PlaceSlice(st.book, slices[0]);
      assert st'.twaps[..st'.head] == st.twaps[..st.head] + [st'.twaps[st.head]];
      LazyIsEager(l, st', logs);
      assert logs == [] ==> Feed(l, st, logs) == st && Feed(l, st', logs) == st';
      assert logs != [] ==> InsertOrderLog(l, st, logs[0]) == InsertOrderLog(l, st', logs[0]);
    } else if logs != [] {
      var st' := InsertOrderLog(l, st, logs[0]);
      assert st' == st.(book := Place(l, st.book, logs[0]));
      assert events[1..] == Merge(logs[1..], slices);
      LazyIsEager(l, st', logs[1..]);
    }
  }

  // ------------------------------------- the merge is the time order of the day

  function LogsIn(events: seq<Event>): seq<Order> {
    if events == [] then []
    else (if events[0].LogEvent? then [events[0].order] else []) + LogsIn(events[1..])
  }

  function SlicesIn(events: seq<Event>): seq<Order> {
    if events == [] then []
    else (if events[0].SliceEvent? then [events[0].order] else []) + SlicesIn(events[1..])
  }

  /** By time, and order logs before slices at the same time. */
  predicate NotAfter(a: Event, b: Event) {
    if a.order.timestamp != b.order.timestamp then a.order.timestamp < b.order.timestamp
    else a.LogEvent? || b.SliceEvent?
  }

  ghost predicate Chronological(events: seq<Event>) {
    forall i, j :: 0 <= i < j < |events| ==> NotAfter(events[i], events[j])
  }

  lemma {:induction false} Occurs(events: seq<Event>)
    ensures LogsIn(events) != [] ==> LogEvent(LogsIn(events)[0]) in events
    ensures SlicesIn(events) != [] ==> SliceEvent(SlicesIn(events)[0]) in events
    ensures events == [] <==> LogsIn(events) == [] && SlicesIn(events) == []
  {
    if events != [] {
      Occurs(events[1..]);
      assert events == [events[0]] + events[1..];
    }
  }

  lemma {:induction false} MergeMembers(logs: seq<Order>, slices: seq<Order>, e: Event)
    requires e in Merge(logs, slices)
    ensures if e.LogEvent? then e.order in logs else e.order in slices
    decreases |logs| + |slices|
  {
    if slices != [] && (logs == [] || slices[0].timestamp < logs[0].timestamp) {
      if e in Merge(logs, slices[1..]) {
        MergeMembers(logs, slices[1..], e);
      }
    } else if e in Merge(logs[1..], slices) {
      MergeMembers(logs[1..], slices, e);
    }
  }

  lemma ChronologicalCons(e: Event, rest: seq<Event>)
    ensures Chronological([e] + rest) <==> Chronological(rest) && forall x :: x in rest ==> NotAfter(e, x)
  {
    hide NotAfter;
    var all := [e] + rest;
    assert forall i :: 0 <= i < |rest| ==> rest[i] == all[i + 1];
    if Chronological(all) {
      forall x | x in rest ensures NotAfter(e, x) {
        var i :| 0 <= i < |rest| && rest[i] == x;
        assert NotAfter(all[0], all[i + 1]);
      }
      forall i, j | 0 <= i < j < |rest| ensures NotAfter(rest[i], rest[j]) {
        assert NotAfter(all[i + 1], all[j + 1]);
      }
    }
  }

  lemma FirstIsEarliest(logs: seq<Order>, slices: seq<Order>, e: Event, x: Event)
    requires InTimeOrder(logs) && InTimeOrder(slices)
    requires if x.LogEvent? then x.order in logs else x.order in slices
    requires if e.SliceEvent?
             then slices != [] && e.order == slices[0] && (logs == [] || slices[0].timestamp < logs[0].timestamp)
             else logs != [] && e.order == logs[0] && (slices == [] || slices[0].timestamp >= logs[0].timestamp)
    ensures NotAfter(e, x)
  {
  }

  lemma {:induction false} MergeChronological(logs: seq<Order>, slices: seq<Order>)
    requires InTimeOrder(logs) && InTimeOrder(slices)
    ensures var m := Merge(logs, slices); Chronological(m) && LogsIn(m) == logs && SlicesIn(m) == slices
    decreases |logs| + |slices|
  {
    hide Chronological, NotAfter;
    var sliceFirst := slices != [] && (logs == [] || slices[0].timestamp < logs[0].timestamp);
    if sliceFirst {
      var e, rest := SliceEvent(slices[0]), Merge(logs, slices[1..]);
      MergeChronological(logs, slices[1..]);
      forall x | x in rest ensures NotAfter(e, x) {
        MergeMembers(logs, slices[1..], x);
        FirstIsEarliest(logs, slices, e, x);
      }
      ChronologicalCons(e, rest);
      assert ([e] + rest)[1..] == rest && [slices[0]] + slices[1..] == slices;
    } else if logs != [] {
      var e, rest := LogEvent(logs[0]), Merge(logs[1..], slices);
      MergeChronological(logs[1..], slices);
      forall x | x in rest ensures NotAfter(e, x) {
        MergeMembers(logs[1..], slices, x);
        FirstIsEarliest(logs, slices, e, x);
      }
      ChronologicalCons(e, rest);
      assert ([e] + rest)[1..] == rest && [logs[0]] + logs[1..] == logs;
    } else {
      NothingChronological();
    }
  }

  lemma NothingChronological()
    ensures Chronological([])
  {
  }

  lemma {:induction false} ChronologicalIsMerge(events: seq<Event>)
    requires Chronological(events)
    ensures events == Merge(LogsIn(events), SlicesIn(events))
  {
    if events != [] {
      hide Chronological;
      var e, rest := events[0], events[1..];
      assert events == [e] + rest;
      ChronologicalCons(e, rest);
      ChronologicalIsMerge(rest);
      Occurs(rest);
      var logs, slices := LogsIn(rest), SlicesIn(rest);
      if e.SliceEvent? {
        assert logs != [] ==> NotAfter(e, LogEvent(logs[0]));
        MergeSlice(logs, slices, e.order);
        assert LogsIn(events) == logs && SlicesIn(events) == [e.order] + slices;
      } else {
        assert slices != [] ==> NotAfter(e, SliceEvent(slices[0]));
        MergeLog(logs, slices, e.order);
        assert LogsIn(events) == [e.order] + logs && SlicesIn(events) == slices;
      }
    }
  }

  lemma MergeSlice(logs: seq<Order>, slices: seq<Order>, o: Order)
    requires logs != [] ==> o.timestamp < logs[0].timestamp
    ensures Merge(logs, [o] + slices) == [SliceEvent(o)] + Merge(logs, slices)
  {
    assert ([o] + slices)[1..] == slices;
  }

  lemma MergeLog(logs: seq<Order>, slices: seq<Order>, o: Order)
    requires slices != [] ==> o.timestamp <= slices[0].timestamp
    ensures Merge([o] + logs, slices) == [LogEvent(o)] + Merge(logs, slices)
  {
    assert ([o] + logs)[1..] == logs;
  }

  /** For streams that are each in time order the merge is the only chronological order of all
      their events. */
  lemma MergeIsTheChronology(logs: seq<Order>, slices: seq<Order>, events: seq<Event>)
    requires InTimeOrder(logs) && InTimeOrder(slices)
    ensures events == Merge(logs, slices)
       <==> Chronological(events) && LogsIn(events) == logs && SlicesIn(events) == slices
  {
    MergeChronological(logs, slices);
    if Chronological(events) {
      ChronologicalIsMerge(events);
    }
  }

  lemma {:induction false} AlphasOnlyRecord(s: Session, st: State, alphas: seq<Alpha>)
    requires s.num > 0
    ensures InsertAlphas(s, st, alphas).book == st.book && InsertAlphas(s, st, alphas).head == st.head
  {
    if alphas != [] {
      AlphasOnlyRecord(s, st, alphas[..|alphas| - 1]);
    }
  }

  lemma {:induction false} RunConcat(s: Session, l: Limits, st: State, a: seq<Op>, b: seq<Op>)
    requires s.num > 0
    ensures Run(s, l, st, a + b) == Run(s, l, Run(s, l, st, a), b)
    decreases |a|
  {
    hide Step;
    if a == [] {
      assert a + b == b;
    } else {
      assert (a + b)[0] == a[0] && (a + b)[1..] == a[1..] + b;
      RunConcat(s, l, Step(s, l, st, a[0]), a[1..], b);
    }
  }

  /** One contract's day: all alphas, then the order logs, then the completion. */
  function Day(alphas: seq<Alpha>, logs: seq<Order>): seq<Op> {
    AlphaOps(alphas) + LogOps(logs) + [CompleteOp]
  }

  /** Book, position, last price and tape are those of the merged streams of order logs and
      slices, and every slice has been injected and keeps the price it was injected at. When
      order logs come in time order and target changes are far enough apart, the merge is the
      only chronological order of the streams. */
  ghost predicate ChronologicalEnd(s: Session, l: Limits, prevClose: int, prevPosition: int, alphas: seq<Alpha>,
                                   logs: seq<Order>, end: State)
    requires s.num > 0
  {
    var st := InsertAlphas(s, Initial(prevClose, prevPosition), alphas);
    && end.book == Eager(l, Initial(prevClose, prevPosition).book, Merge(logs, st.twaps))
    && end.head == |end.twaps| == |st.twaps|
    && end.twaps == PricedSlices(l, Initial(prevClose, prevPosition).book, Merge(logs, st.twaps))
    && (s.length >= 0 && InTimeOrder(logs) && Spaced(s, Changes(prevPosition, alphas)) ==>
          forall events :: events == Merge(logs, st.twaps) <==>
            Chronological(events) && LogsIn(events) == logs && SlicesIn(events) == st.twaps)
  }

  /** The completion comes after all slices. */
  ghost predicate EndsInTime(s: Session, prevClose: int, prevPosition: int, alphas: seq<Alpha>)
    requires s.num > 0
  {
    forall o :: o in InsertAlphas(s, Initial(prevClose, prevPosition), alphas).twaps ==> o.timestamp < MAX_INT
  }

  lemma LazyDay(s: Session, l: Limits, prevClose: int, prevPosition: int, alphas: seq<Alpha>, logs: seq<Order>)
    requires s.num > 0 && EndsInTime(s, prevClose, prevPosition, alphas)
    ensures ChronologicalEnd(s, l, prevClose, prevPosition, alphas, logs,
                             Run(s, l, Initial(prevClose, prevPosition), Day(alphas, logs)))
  {
    hide Run, Eager, PricedSlices, Merge, Feed, Complete, Chronological, AlphaOps, LogOps, InsertAlphas;
    var st0 := Initial(prevClose, prevPosition);
    var st := InsertAlphas(s, st0, alphas);
    AlphasOnlyRecord(s, st0, alphas);
    assert st.twaps[0..] == st.twaps && st.twaps[..0] == [];
    assert Day(alphas, logs) == AlphaOps(alphas) + (LogOps(logs) + [CompleteOp]);
    RunConcat(s, l, st0, AlphaOps(alphas), LogOps(logs) + [CompleteOp]);
    RunIsInsertAlphas(s, l, st0, alphas);
    RunIsFeed(s, l, st, logs);
    LazyIsEager(l, st, logs);
    if s.length >= 0 && InTimeOrder(logs) && Spaced(s, Changes(prevPosition, alphas)) {
      SlicesInTimeOrderIff(s, prevClose, prevPosition, alphas);
      forall events ensures events == Merge(logs, st.twaps) <==>
        Chronological(events) && LogsIn(events) == logs && SlicesIn(events) == st.twaps
      {
        MergeIsTheChronology(logs, st.twaps, events);
      }
    }
  }
}
