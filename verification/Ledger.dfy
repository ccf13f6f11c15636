/** Sums over the tape of fills: our position, our cash and the profit they make. */
module Ledger {
  import opened Orders
  import opened Matching

  /** Signed volume of our own fills. */
  function Bought(tape: seq<Fill>): int {
    if tape == [] then 0
    else Bought(tape[..|tape| - 1]) + OwnSign(tape[|tape| - 1]) * tape[|tape| - 1].volume
  }

  /** Signed price times volume of our own fills. */
  function CashPaid(tape: seq<Fill>): int {
    if tape == [] then 0
    else var f := tape[|tape| - 1]; CashPaid(tape[..|tape| - 1]) + OwnSign(f) * (f.price * f.volume)
  }

  lemma PushSums(tape: seq<Fill>, f: Fill)
    ensures Bought(Push(tape, f)) == Bought(tape) + OwnSign(f) * f.volume
    ensures CashPaid(Push(tape, f)) == CashPaid(tape) + OwnSign(f) * (f.price * f.volume)
  {
    var t := Push(tape, f);
    var n := |tape|;
    if n > 0 && SamePrint(tape[n - 1], f) {
      assert t[..n - 1] == tape[..n - 1];
      assert f.price * (tape[n - 1].volume + f.volume) == f.price * tape[n - 1].volume + f.price * f.volume;
    } else {
      assert t[..n] == tape;
    }
  }

  predicate Booked(a: Account, prevPosition: int) {
    a.position == prevPosition + Bought(a.tape)
  }

  // ------------------------------------------------------------------- profit

  /** What our fills have made at price p. */
  function Gain(tape: seq<Fill>, p: int): int {
    if tape == [] then 0
    else var f := tape[|tape| - 1]; Gain(tape[..|tape| - 1], p) + OwnSign(f) * (f.volume * (p - f.price))
  }

  lemma {:induction false} GainSplits(tape: seq<Fill>, p: int)
    ensures Gain(tape, p) == p * Bought(tape) - CashPaid(tape)
  {
    if tape != [] {
      var f := tape[|tape| - 1];
      GainSplits(tape[..|tape| - 1], p);
      assert f.volume * (p - f.price) == p * f.volume - f.price * f.volume;
      if OwnSign(f) == 1 {
        assert p * (Bought(tape[..|tape| - 1]) + f.volume) == p * Bought(tape[..|tape| - 1]) + p * f.volume;
      } else if OwnSign(f) == -1 {
        assert p * (Bought(tape[..|tape| - 1]) - f.volume) == p * Bought(tape[..|tape| - 1]) - p * f.volume;
      }
    }
  }

  // ------------------------------------------------------------------- income

  /** The tape of single fills that followed each other in this order. */
  function Tape(fills: seq<Fill>): seq<Fill> {
    if fills == [] then [] else Push(Tape(fills[..|fills| - 1]), fills[|fills| - 1])
  }

  /** A value below zero is booked one tick too high: the rounding adds half a tick and then
      cuts the fraction off toward zero. */
  function Slip(f: Fill): int {
    if f.price < 0 then -OwnSign(f) else 0
  }

  /** Our sales minus our purchases at a negative price, each fill counted once. */
  function Slips(fills: seq<Fill>): int {
    if fills == [] then 0 else Slips(fills[..|fills| - 1]) + Slip(fills[|fills| - 1])
  }

  /** What the program adds to the income for one fill. */
  function Proceeds(f: Fill): int {
    -OwnSign(f) * Round2(f.price * f.volume * 100)
  }

  lemma ProceedsSlip(f: Fill)
    requires f.volume > 0
    ensures Proceeds(f) == -OwnSign(f) * (f.price * f.volume) + Slip(f)
  {
    var x := f.price * f.volume;
    assert f.price < 0 ==> x < 0;
    assert f.price >= 0 ==> x >= 0;
    RoundedValue(x);
  }

  lemma RoundedValue(x: int)
    ensures Round2(x * 100) == if x < 0 then x + 1 else x
  {
  }

  /** Position, income and tape are what the single fills make them. */
  predicate Agrees(a: Account, prevPosition: int, income: int, fills: seq<Fill>) {
    && a.tape == Tape(fills) && Booked(a, prevPosition)
    && income == -CashPaid(a.tape) + Slips(fills)
  }

  lemma AgreesInitially(prevPosition: int, lastPrice: int)
    ensures Agrees(Account(prevPosition, lastPrice, []), prevPosition, 0, [])
  {
  }

  /** One more fill. */
  lemma AgreesNext(a: Account, prevPosition: int, income: int, fills: seq<Fill>, f: Fill)
    requires Agrees(a, prevPosition, income, fills) && f.volume > 0
    ensures Agrees(Account(a.position + OwnSign(f) * f.volume, f.price, Push(a.tape, f)), prevPosition,
                   income + Proceeds(f), fills + [f])
  {
    hide Push, Proceeds;
    PushSums(a.tape, f);
    ProceedsSlip(f);
    assert (fills + [f])[..|fills|] == fills;
  }

  /** The reported profit is the old position carried from the previous close to the last
      price, what every own fill has made since, and the slips of the rounding. It is the
      profit of the fills exactly if these cancel. */
  lemma ProfitIdentity(a: Account, prevClose: int, prevPosition: int, income: int, fills: seq<Fill>)
    requires Agrees(a, prevPosition, income, fills)
    ensures var pnl := a.lastPrice * a.position - prevClose * prevPosition + income;
      var gain := prevPosition * (a.lastPrice - prevClose) + Gain(a.tape, a.lastPrice);
      pnl == gain + Slips(fills) && (pnl == gain <==> Slips(fills) == 0)
  {
    GainSplits(a.tape, a.lastPrice);
    assert a.lastPrice * (prevPosition + Bought(a.tape)) == a.lastPrice * prevPosition + a.lastPrice * Bought(a.tape);
    assert prevPosition * (a.lastPrice - prevClose) == prevPosition * a.lastPrice - prevPosition * prevClose;
  }

  /** The tape shows the prices and the parties of all single fills. */
  lemma {:induction false} TapeShows(fills: seq<Fill>, f: Fill)
    requires f in fills
    ensures exists g :: g in Tape(fills) && SamePrint(f, g)
  {
    var n := |fills| - 1;
    var t := Tape(fills[..n]);
    var u := Tape(fills);
    assert u[|u| - 1] in u && SamePrint(fills[n], u[|u| - 1]);
    if f in fills[..n] {
      TapeShows(fills[..n], f);
      var g :| g in t && SamePrint(f, g);
      PushShows(t, fills[n], g);
    } else {
      assert f == fills[n];
    }
  }

  lemma PushShows(t: seq<Fill>, f: Fill, g: Fill)
    requires g in t
    ensures exists h :: h in Push(t, f) && SamePrint(g, h)
  {
    var u := Push(t, f);
    var i :| 0 <= i < |t| && t[i] == g;
    assert u[i] in u && SamePrint(g, u[i]);
  }

  /** A tape without own fills at negative prices has no slips, however its lines were filled. */
  lemma {:induction false} NoSlips(fills: seq<Fill>)
    requires forall g :: g in Tape(fills) && OwnSign(g) != 0 ==> g.price >= 0
    ensures Slips(fills) == 0
  {
    if fills != [] {
      var n := |fills| - 1;
      TapeShows(fills, fills[n]);
      forall g | g in Tape(fills[..n]) && OwnSign(g) != 0 ensures g.price >= 0 {
        PushShows(Tape(fills[..n]), fills[n], g);
      }
      NoSlips(fills[..n]);
    }
  }
}
