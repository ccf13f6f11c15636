/** Instrument ids are eight characters in a 64-bit word, the first one in the lowest byte.
    The outputs are sorted on the reversed words, that is, alphabetically. */
module InstrumentIds {
  import opened Modular

  /** The n lowest bytes of x, the lowest first. */
  function Bytes(x: nat, n: nat): (s: seq<nat>)
    ensures |s| == n && forall i :: 0 <= i < n ==> s[i] < 256
  {
    if n == 0 then [] else [x % 256] + Bytes(x / 256, n - 1)
  }

  /** The number with these bytes, the highest first. */
  function BigEndian(s: seq<nat>): nat {
    if s == [] then 0 else BigEndian(s[..|s| - 1]) * 256 + s[|s| - 1]
  }

  function Mirror(s: seq<nat>): (r: seq<nat>)
    ensures |r| == |s|
  {
    if s == [] then [] else Mirror(s[1..]) + [s[0]]
  }

  function Power256(n: nat): nat {
    if n == 0 then 1 else 256 * Power256(n - 1)
  }

  function Reverse(x: nat): nat {
    BigEndian(Bytes(x, 8))
  }

  /** x without its n lowest bytes. */
  function Shift(x: nat, n: nat): nat {
    if n == 0 then x else Shift(x / 256, n - 1)
  }

  lemma {:induction false} BytesSnoc(x: nat, n: nat)
    ensures Bytes(x, n + 1) == Bytes(x, n) + [Shift(x, n) % 256]
    ensures Shift(x, n + 1) == Shift(x, n) / 256
    decreases n
  {
    if n > 0 {
      BytesSnoc(x / 256, n - 1);
    } else {
      assert Bytes(x, 1) == [x % 256] + Bytes(x / 256, 0);
    }
  }

  /** The reversal loop. */
  method ReverseInstrumentId(instrumentId: nat) returns (result: nat)
    ensures result == Reverse(instrumentId)
  {
    result := 0;
    var rest := instrumentId;
    for i := 0 to 8
      invariant rest == Shift(instrumentId, i) && result == BigEndian(Bytes(instrumentId, i))
    {
      BytesSnoc(instrumentId, i);
      var s := Bytes(instrumentId, i + 1);
      assert s[..i] == Bytes(instrumentId, i) && s[i] == rest % 256;
      result := result * 256 + rest % 256;
      rest := rest / 256;
    }
  }

  predicate Digits(s: seq<nat>) {
    forall i :: 0 <= i < |s| ==> s[i] < 256
  }

  lemma {:induction false} BytesOfBigEndian(s: seq<nat>)
    requires Digits(s)
    ensures Bytes(BigEndian(s), |s|) == Mirror(s) && BigEndian(s) < Power256(|s|)
  {
    if s != [] {
      var t, b := s[..|s| - 1], s[|s| - 1];
      BytesOfBigEndian(t);
      var x := BigEndian(s);
      assert x == BigEndian(t) * 256 + b && x / 256 == BigEndian(t) && x % 256 == b;
      MirrorSnoc(t, b);
      assert s == t + [b];
    }
  }

  lemma {:induction false} MirrorSnoc(s: seq<nat>, b: nat)
    ensures Mirror(s + [b]) == [b] + Mirror(s)
  {
    if s != [] {
      MirrorSnoc(s[1..], b);
      assert (s + [b])[1..] == s[1..] + [b];
    }
  }

  lemma {:induction false} BigEndianOfMirror(x: nat, n: nat)
    requires x < Power256(n)
    ensures BigEndian(Mirror(Bytes(x, n))) == x
    decreases n
  {
    if n > 0 {
      BigEndianOfMirror(x / 256, n - 1);
      var s := Bytes(x, n);
      assert s[1..] == Bytes(x / 256, n - 1);
      assert Mirror(s)[..n - 1] == Mirror(s[1..]);
    }
  }

  /** Reversing twice gives the id back. */
  lemma ReverseTwice(x: nat)
    requires x < Power256(8)
    ensures Reverse(x) < Power256(8) && Reverse(Reverse(x)) == x
  {
    BytesOfBigEndian(Bytes(x, 8));
    BigEndianOfMirror(x, 8);
  }

  /** Alphabetical order of equally long byte strings. */
  predicate LexLess(s: seq<nat>, t: seq<nat>)
    requires |s| == |t|
  {
    s != [] && (s[0] < t[0] || (s[0] == t[0] && LexLess(s[1..], t[1..])))
  }

  lemma {:induction false} LexLessSnoc(s: seq<nat>, t: seq<nat>, a: nat, b: nat)
    requires |s| == |t|
    ensures LexLess(s + [a], t + [b]) <==> LexLess(s, t) || (s == t && a < b)
  {
    if s != [] {
      assert (s + [a])[1..] == s[1..] + [a] && (t + [b])[1..] == t[1..] + [b];
      assert s == [s[0]] + s[1..] && t == [t[0]] + t[1..];
      LexLessSnoc(s[1..], t[1..], a, b);
    }
  }

  lemma {:induction false} BigEndianOrder(s: seq<nat>, t: seq<nat>)
    requires |s| == |t| && Digits(s) && Digits(t)
    ensures BigEndian(s) < BigEndian(t) <==> LexLess(s, t)
    ensures BigEndian(s) == BigEndian(t) <==> s == t
  {
    if s != [] {
      var n := |s| - 1;
      assert s == s[..n] + [s[n]] && t == t[..n] + [t[n]];
      BigEndianOrder(s[..n], t[..n]);
      LexLessSnoc(s[..n], t[..n], s[n], t[n]);
    }
  }

  /** Comparing reversed ids compares the ids as strings. */
  lemma ReversedOrderIsAlphabetical(x: nat, y: nat)
    ensures Reverse(x) < Reverse(y) <==> LexLess(Bytes(x, 8), Bytes(y, 8))
  {
    BigEndianOrder(Bytes(x, 8), Bytes(y, 8));
  }
}
