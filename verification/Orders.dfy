/** Orders, their priority on either side of the book, and tick arithmetic.
    Prices are whole ticks of 0.01; see EpsPrices.dfy for why the floating-point
    comparators of the program agree with the exact ones used here. */
module Orders {

  datatype Direction = Sale | Buy

  const PRICE_LIMIT := 0
  const OPPOSITE_BEST_PRICE := 1
  const OUR_BEST_PRICE := 2
  const BEST_FIVE_PRICE_NO_LEFT := 3
  const IMMEDIATE_DEAL_NO_LEFT := 4
  const ALL_OR_NOTHING := 5
  const MY_CONTRACT := 6

  const MAX_INT := 2147483647

  datatype Order = Order(timestamp: int, volume: int, price: int, direction: Direction, kind: nat)

  function Opposite(d: Direction): Direction {
    if d == Sale then Buy else Sale
  }

  function Min(x: int, y: int): int {
    if x < y then x else y
  }

  function Max(x: int, y: int): int {
    if x > y then x else y
  }

  /** Price priority: cheaper sales first, dearer buys first. */
  predicate BetterPrice(d: Direction, p: int, q: int) {
    if d == Sale then p < q else p > q
  }

  /** The heap comparators on exact prices: price, then time, then type (own orders last). */
  predicate Before(d: Direction, a: Order, b: Order) {
    if a.price != b.price then BetterPrice(d, a.price, b.price)
    else if a.timestamp != b.timestamp then a.timestamp < b.timestamp
    else a.kind < b.kind
  }

  /** Two orders the comparators cannot tell apart. */
  predicate SameKey(a: Order, b: Order) {
    a.price == b.price && a.timestamp == b.timestamp && a.kind == b.kind
  }

  /** An incoming order with price p trades with a resting order of the other side at price q. */
  predicate Crosses(d: Direction, p: int, q: int) {
    if d == Sale then p <= q else q <= p
  }

  /** What may rest on side d: a positive volume, and the side's own direction. */
  predicate CanRest(d: Direction, o: Order) {
    o.direction == d && o.volume > 0
  }

  // ---------------------------------------------------------------- rounding

  /** Rounding to whole ticks of a price given in hundredths of a tick: half is added and
      the fraction is then cut off toward zero, also for negative prices. */
  function Round2(c: int): int {
    if c >= -50 then (c + 50) / 100 else -((-c - 51) / 100)
  }

  /** The variant that is symmetric around zero. */
  function Round2CoverNegative(c: int): int {
    if c < 0 then -((-c + 50) / 100) else (c + 50) / 100
  }

  // ------------------------------------------------- the byte of side and type

  const TYPE_MASK: bv8 := 7
  const DIRECTION_MASK: bv8 := 8

  function EncodeDirectionAndType(d: Direction, kind: bv8): bv8 {
    ((if d == Buy then 1 else 0) << 3) | kind
  }

  /** Both ways of reading the byte back give the packed values, exactly for types below 8. */
  lemma EncodingRoundTrip(d: Direction, kind: bv8)
    ensures var b := EncodeDirectionAndType(d, kind);
      && (kind < 8 <==> b & TYPE_MASK == kind)
      && (kind < 8 ==> (b >> 3 == 1 <==> d == Buy) && ((b & DIRECTION_MASK) >> 3 == 1 <==> d == Buy))
  {
    var b := EncodeDirectionAndType(d, kind);
    if d == Buy {
      assert b == 8 | kind;
    } else {
      assert b == kind;
    }
  }
}
