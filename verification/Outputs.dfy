/** The rows of the TWAP output: ids are reversed for sorting and restored afterwards. */
module Outputs {
  import opened Orders
  import opened InstrumentIds

  datatype TwapRow = TwapRow(instrumentId: nat, timestamp: int, direction: int, volume: int, price: int)

  /** The comparison the rows are sorted with. */
  predicate RowBefore(a: TwapRow, b: TwapRow) {
    if a.timestamp != b.timestamp then a.timestamp < b.timestamp else a.instrumentId < b.instrumentId
  }

  function RowOf(id: nat, o: Order, offset: int): TwapRow {
    TwapRow(id, o.timestamp + offset, if o.direction == Sale then -1 else 1, o.volume, o.price)
  }

  /** The row says whose slice it is, when, on which side (-1 for a sale, 1 for a purchase), how
      much and at what price. */
  predicate RowIs(r: TwapRow, id: nat, o: Order, offset: int) {
    && r.instrumentId == id && r.timestamp - offset == o.timestamp
    && r.volume == o.volume && r.price == o.price
    && (o.direction == Sale ==> r.direction == -1) && (o.direction == Buy ==> r.direction == 1)
  }

  function RowsOf(id: nat, twaps: seq<Order>, offset: int): (rows: seq<TwapRow>)
    ensures |rows| == |twaps|
  {
    seq(|twaps|, i requires 0 <= i < |twaps| => RowOf(id, twaps[i], offset))
  }

  lemma RowsOfAt(id: nat, twaps: seq<Order>, offset: int, j: nat)
    requires j < |twaps|
    ensures RowIs(RowsOf(id, twaps, offset)[j], id, twaps[j], offset)
  {
  }

  function ReverseId(r: TwapRow): TwapRow {
    r.(instrumentId := Reverse(r.instrumentId))
  }

  function ReverseIds(rows: seq<TwapRow>): (s: seq<TwapRow>)
    ensures |s| == |rows|
  {
    if rows == [] then [] else [ReverseId(rows[0])] + ReverseIds(rows[1..])
  }

  /** All that is assumed about the library's sort. */
  ghost predicate SortedCopy(s: seq<TwapRow>, rows: seq<TwapRow>) {
    && multiset(s) == multiset(rows)
    && forall i, j :: 0 <= i < j < |s| ==> !RowBefore(s[j], s[i])
  }

  /** The rows in the order of their time stamps and, at equal time stamps, of their ids as strings. */
  ghost predicate Alphabetical(rows: seq<TwapRow>) {
    forall i, j :: 0 <= i < j < |rows| ==>
      rows[i].timestamp < rows[j].timestamp ||
      (rows[i].timestamp == rows[j].timestamp &&
       !LexLess(Bytes(rows[j].instrumentId, 8), Bytes(rows[i].instrumentId, 8)))
  }

  ghost predicate WordIds(rows: seq<TwapRow>) {
    forall i :: 0 <= i < |rows| ==> rows[i].instrumentId < Power256(8)
  }

  lemma {:induction false} ReverseIdsAt(rows: seq<TwapRow>, i: nat)
    requires i < |rows|
    ensures ReverseIds(rows)[i] == ReverseId(rows[i])
  {
    if i > 0 {
      ReverseIdsAt(rows[1..], i - 1);
    }
  }

  lemma {:induction false} ReverseIdsTwice(rows: seq<TwapRow>)
    requires WordIds(rows)
    ensures ReverseIds(ReverseIds(rows)) == rows && WordIds(ReverseIds(rows))
  {
    if rows != [] {
      hide Reverse;
      ReverseTwice(rows[0].instrumentId);
      ReverseIdsTwice(rows[1..]);
      assert ReverseIds(rows)[1..] == ReverseIds(rows[1..]);
      assert rows == [rows[0]] + rows[1..];
    }
  }

  lemma {:induction false} ReverseIdsConcat(a: seq<TwapRow>, b: seq<TwapRow>)
    ensures ReverseIds(a + b) == ReverseIds(a) + ReverseIds(b)
  {
    if a == [] {
      assert a + b == b;
    } else {
      assert (a + b)[1..] == a[1..] + b;
      ReverseIdsConcat(a[1..], b);
    }
  }

  lemma Middle(a: seq<TwapRow>, r: TwapRow, b: seq<TwapRow>)
    ensures multiset(a + ([r] + b)) == multiset(a + b) + multiset{r}
  {
  }

  lemma MiddleReversed(a: seq<TwapRow>, r: TwapRow, b: seq<TwapRow>)
    ensures ReverseIds(a + ([r] + b)) == ReverseIds(a) + ([ReverseId(r)] + ReverseIds(b))
    ensures ReverseIds(a + b) == ReverseIds(a) + ReverseIds(b)
  {
    hide ReverseId;
    ReverseIdsConcat(a, [r] + b);
    ReverseIdsConcat([r], b);
    ReverseIdsConcat(a, b);
    assert ReverseIds([r]) == [ReverseId(r)];
  }

  lemma TakeOutReversed(a: seq<TwapRow>, r: TwapRow, b: seq<TwapRow>)
    ensures multiset(ReverseIds(a + ([r] + b))) == multiset(ReverseIds(a + b)) + multiset{ReverseId(r)}
  {
    hide ReverseId, ReverseIds;
    MiddleReversed(a, r, b);
    Middle(ReverseIds(a), ReverseId(r), ReverseIds(b));
  }

  lemma HeadAndRest(s: seq<TwapRow>)
    requires s != []
    ensures multiset(s[1..]) == multiset(s) - multiset{s[0]}
    ensures multiset(ReverseIds(s)) == multiset(ReverseIds(s[1..])) + multiset{ReverseId(s[0])}
  {
    hide ReverseId;
    assert s == [s[0]] + s[1..];
  }

  /** Renaming row by row keeps permutations. */
  lemma {:induction false} ReverseIdsPermutes(s: seq<TwapRow>, t: seq<TwapRow>)
    requires multiset(s) == multiset(t)
    ensures multiset(ReverseIds(s)) == multiset(ReverseIds(t))
    decreases |s|
  {
    if s == [] {
      assert |multiset(t)| == |t|;
    } else {
      hide ReverseId, ReverseIds;
      assert s[0] in multiset(s);
      var a, b := SplitAt(t, s[0]);
      HeadAndRest(s);
      Middle(a, s[0], b);
      ReverseIdsPermutes(s[1..], a + b);
      TakeOutReversed(a, s[0], b);
    }
  }

  lemma SplitAt(t: seq<TwapRow>, r: TwapRow) returns (a: seq<TwapRow>, b: seq<TwapRow>)
    requires r in multiset(t)
    ensures t == a + ([r] + b)
  {
    var k :| 0 <= k < |t| && t[k] == r;
    a, b := t[..k], t[k + 1..];
  }

  /** Whatever sorted copy of the reversed rows the sort returns, restoring the ids gives a
      permutation of the original rows in alphabetical order. */
  lemma OutputOrder(rows: seq<TwapRow>, s: seq<TwapRow>)
    requires WordIds(rows) && SortedCopy(s, ReverseIds(rows))
    ensures multiset(ReverseIds(s)) == multiset(rows) && Alphabetical(ReverseIds(s))
  {
    hide Reverse;
    ReverseIdsPermutes(s, ReverseIds(rows));
    ReverseIdsTwice(rows);
    var out := ReverseIds(s);
    forall i | 0 <= i < |s| ensures s[i].instrumentId < Power256(8) {
      assert s[i] in multiset(ReverseIds(rows));
    }
    forall i, j | 0 <= i < j < |out|
      ensures out[i].timestamp < out[j].timestamp ||
        (out[i].timestamp == out[j].timestamp && !LexLess(Bytes(out[j].instrumentId, 8), Bytes(out[i].instrumentId, 8)))
    {
      ReverseIdsAt(s, i);
      ReverseIdsAt(s, j);
      assert !RowBefore(s[j], s[i]);
      ReverseTwice(s[i].instrumentId);
      ReverseTwice(s[j].instrumentId);
      ReversedOrderIsAlphabetical(out[j].instrumentId, out[i].instrumentId);
    }
  }
}
