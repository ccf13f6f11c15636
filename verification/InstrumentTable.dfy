/** The hash index from instrument ids to contract numbers. */
module InstrumentTable {
  import opened Modular

  /** An id and its contract number; id 0 marks a free slot. */
  type Pair = (nat, nat)

  /** The contract number, the table and the number of contracts after a lookup, or the case
      that the probe runs off the end of the table. */
  datatype Lookup = Found(index: nat, table: seq<Pair>, last: nat) | OffTheEnd

  /** The first slot from i on that is free or holds the id, or the table's length. */
  function Probe(table: seq<Pair>, id: nat, i: nat): (j: nat)
    requires i <= |table|
    ensures i <= j <= |table|
    decreases |table| - i
  {
    if i == |table| || table[i].0 == 0 || table[i].0 == id then i else Probe(table, id, i + 1)
  }

  function LookUp(table: seq<Pair>, last: nat, id: nat): (r: Lookup)
    requires table != []
    ensures r.Found? ==> |r.table| == |table|
  {
    var home := id % |table|;
    if table[home].0 == id then Found(table[home].1, table, last)
    else
      var j := Probe(table, id, home);
      if j == |table| then OffTheEnd else Found(last, table[j := (id, last)], last + 1)
  }

  // -------------------------------------------------------------- distinct residues

  ghost predicate DistinctResidues(ids: set<nat>, m: nat)
    requires m > 0
  {
    forall x, y :: x in ids && y in ids && x % m == y % m ==> x == y
  }

  /** The table holds exactly the given names, each in its home slot, numbered in order. */
  ghost predicate Holds(table: seq<Pair>, names: seq<nat>) {
    && table != []
    && (forall k :: 0 <= k < |names| ==> table[names[k] % |table|] == (names[k], k) && names[k] > 0)
    && (forall j :: 0 <= j < |table| && table[j].0 != 0 ==>
          table[j].1 < |names| && table[j] == (names[table[j].1], table[j].1) && j == names[table[j].1] % |table|)
  }

  /** Every slot that is taken has the number of a contract. */
  ghost predicate Numbered(table: seq<Pair>, last: nat) {
    forall j :: 0 <= j < |table| && table[j].0 != 0 ==> table[j].1 < last
  }

  function Register(names: seq<nat>, id: nat): seq<nat> {
    if id in names then names else names + [id]
  }

  /** With distinct residues a lookup finds a registered id under its number and gives a new
      one the next number; nothing else changes. */
  lemma LookUpHolds(table: seq<Pair>, names: seq<nat>, ids: set<nat>, id: nat)
    requires Holds(table, names) && DistinctResidues(ids, |table|)
    requires id in ids && id > 0 && forall n :: n in names ==> n in ids
    ensures var r := LookUp(table, |names|, id);
      && r.Found? && r.last == |Register(names, id)| && Holds(r.table, Register(names, id))
      && |r.table| == |table|
      && r.index < r.last && Register(names, id)[r.index] == id
  {
    var home := id % |table|;
    if id in names {
      var k :| 0 <= k < |names| && names[k] == id;
      assert table[names[k] % |table|] == (id, k);
    } else {
      forall k | 0 <= k < |names| ensures names[k] % |table| != home {
        assert names[k] in names;
      }
      var r := LookUp(table, |names|, id);
      assert Probe(table, id, home) == home;
      var names' := names + [id];
      forall k | 0 <= k < |names'| ensures r.table[names'[k] % |table|] == (names'[k], k) && names'[k] > 0 {
        assert k < |names| ==> names[k] % |table| != home;
      }
    }
  }

  // ------------------------------------------------------------ all lookup sequences

  /** The numbers found, or nothing if some probe runs off the end. */
  datatype Answers = Answers(numbers: seq<nat>) | Failed

  function LookUpAll(table: seq<Pair>, last: nat, ids: seq<nat>): (r: Answers)
    requires table != []
    ensures r.Answers? ==> |r.numbers| == |ids|
    decreases |ids|
  {
    if ids == [] then Answers([])
    else
      match LookUp(table, last, ids[0])
      case OffTheEnd => Failed
      case Found(index, table', last') =>
        match LookUpAll(table', last', ids[1..])
        case Failed => Failed
        case Answers(rest) => Answers([index] + rest)
  }

  /** Every id keeps its number and no two ids share one. */
  ghost predicate Stable(ids: seq<nat>, m: nat)
    requires m > 0
  {
    var r := LookUpAll(seq(m, _ => (0, 0)), 0, ids);
    r.Answers? && forall i, j :: 0 <= i < |ids| && 0 <= j < |ids| ==>
      (ids[i] == ids[j] <==> r.numbers[i] == r.numbers[j])
  }

  lemma {:induction false} AnswersName(table: seq<Pair>, names: seq<nat>, all: set<nat>, ids: seq<nat>)
    returns (names': seq<nat>)
    requires Holds(table, names) && DistinctResidues(all, |table|) && 0 !in all
    requires (forall n :: n in names ==> n in all) && forall x :: x in ids ==> x in all
    ensures names <= names' && forall k, l :: 0 <= k < l < |names'| ==> names'[k] != names'[l]
    ensures var r := LookUpAll(table, |names|, ids);
      r.Answers? && forall i :: 0 <= i < |ids| ==> r.numbers[i] < |names'| && names'[r.numbers[i]] == ids[i]
    decreases |ids|
  {
    names' := names;
    if ids == [] {
      forall k, l | 0 <= k < l < |names| ensures names[k] != names[l] {
        assert table[names[k] % |table|].1 == k && table[names[l] % |table|].1 == l;
      }
    } else {
      LookUpHolds(table, names, all, ids[0]);
      var r := LookUp(table, |names|, ids[0]);
      names' := AnswersName(r.table, Register(names, ids[0]), all, ids[1..]);
    }
  }

  lemma LookUpAllCons(table: seq<Pair>, last: nat, id: nat, rest: seq<nat>)
    requires table != []
    ensures var r, all := LookUp(table, last, id), LookUpAll(table, last, [id] + rest);
      if r.OffTheEnd? || LookUpAll(r.table, r.last, rest).Failed? then all == Failed
      else all == Answers([r.index] + LookUpAll(r.table, r.last, rest).numbers)
  {
    hide LookUp;
    assert ([id] + rest)[1..] == rest;
  }

  /** Two ids in the same home slot: the second one is displaced, is not found again, and is
      given another number, or the probe runs off the end at once. */
  lemma CollisionIsUnstable(a: nat, b: nat, m: nat)
    requires m > 0 && a != b && a > 0 && b > 0 && a % m == b % m
    ensures !Stable([a, b, b], m)
  {
    hide LookUp, Probe, LookUpAll;
    var t0: seq<Pair> := seq(m, _ => (0, 0));
    var h := a % m;
    var t1 := t0[h := (a, 0)];
    FirstLookup(t0, a);
    LookUpAllCons(t0, 0, a, [b, b]);
    assert [a] + [b, b] == [a, b, b] && [b] + [b] == [b, b] && [b] + [] == [b];
    DisplacedLookup(t1, 1, b);
    LookUpAllCons(t1, 1, b, [b]);
    var r := LookUpAll(t0, 0, [a, b, b]);
    if h + 1 < m && r.Answers? {
      var t2 := t1[h + 1 := (b, 1)];
      DisplacedLookup(t2, 2, b);
      LookUpAllCons(t2, 2, b, []);
      assert r.numbers[1] == 1 && r.numbers[2] == 2;
      assert [a, b, b][1] == [a, b, b][2];
    }
  }

  lemma FirstLookup(t: seq<Pair>, a: nat)
    requires t != [] && a > 0 && forall j :: 0 <= j < |t| ==> t[j] == (0, 0)
    ensures LookUp(t, 0, a) == Found(0, t[a % |t| := (a, 0)], 1)
  {
  }

  /** A foreign id in the home slot, and the next slot free or already taken by the id. */
  lemma DisplacedLookup(t: seq<Pair>, last: nat, b: nat)
    requires t != [] && b > 0
    requires var h := b % |t|;
      t[h].0 != 0 && t[h].0 != b && (h + 1 < |t| ==> t[h + 1].0 == 0 || t[h + 1].0 == b)
    ensures var h := b % |t|;
      LookUp(t, last, b) == if h + 1 < |t| then Found(last, t[h + 1 := (b, last)], last + 1) else OffTheEnd
  {
    var h := b % |t|;
    assert Probe(t, b, h) == Probe(t, b, h + 1) == h + 1;
  }

  /** The index is a stable and injective map for every sequence of lookups of a set of ids
      exactly if no two of them have the same residue. */
  lemma StableIffDistinctResidues(ids: set<nat>, m: nat)
    requires m > 0 && 0 !in ids
    ensures DistinctResidues(ids, m)
       <==> forall lookups: seq<nat> :: (forall x :: x in lookups ==> x in ids) ==> Stable(lookups, m)
  {
    if DistinctResidues(ids, m) {
      forall lookups: seq<nat> | forall x :: x in lookups ==> x in ids ensures Stable(lookups, m) {
        var names := AnswersName(seq(m, _ => (0, 0)), [], ids, lookups);
      }
    } else {
      var a, b :| a in ids && b in ids && a % m == b % m && a != b;
      CollisionIsUnstable(a, b, m);
      assert forall x :: x in [a, b, b] ==> x in ids;
    }
  }
}
