/** The list manipulations the players apply to a move set before trying
    it: the search's stable sort by number of destinations, the random
    player's uniform choice and the minimax player's shuffle, and the
    flattening of a move set into the single steps it offers. */
module Ordering {
  import opened Grid
  import opened BoardModel
  import opened Moves

  // ------------------------------------------------------------- flatten

  /** One step: a piece moving from one cell to another. */
  datatype Step = Step(from: Pos, to: Pos)

  /** The steps of a move set, entry by entry and, inside an entry,
      destination by destination: the order of the nested loops that try
      them. */
  function Flatten(ms: seq<Move>): (r: seq<Step>)
    ensures forall s :: s in r <==> exists m :: m in ms && s.from == m.from && s.to in m.dests
    ensures |ms| > 0 && |ms[0].dests| > 0 ==> |r| > 0
  {
    if ms == [] then []
    else
      var head := EntrySteps(ms[0].from, ms[0].dests);
      var tail := Flatten(ms[1..]);
      assert forall s :: s in tail <==> exists m :: m in ms[1..] && s.from == m.from && s.to in m.dests;
      forall s | s in head + tail
        ensures exists m :: m in ms && s.from == m.from && s.to in m.dests
      {
        if s in head {
          assert ms[0] in ms;
        } else {
          var m :| m in ms[1..] && s.from == m.from && s.to in m.dests;
          assert m in ms;
        }
      }
      forall s: Step | exists m :: m in ms && s.from == m.from && s.to in m.dests
        ensures s in head + tail
      {
        var m :| m in ms && s.from == m.from && s.to in m.dests;
        if m != ms[0] {
          assert m in ms[1..];
        }
      }
      head + tail
  }

  /** The steps of one entry: its source paired with each destination. */
  function EntrySteps(from: Pos, dests: seq<Pos>): (r: seq<Step>)
    ensures |r| == |dests|
    ensures forall k :: 0 <= k < |r| ==> r[k] == Step(from, dests[k])
    ensures forall s :: s in r <==> s.from == from && s.to in dests
  {
    if dests == [] then [] else [Step(from, dests[0])] + EntrySteps(from, dests[1..])
  }

  /** Every step of a legal move set is a legal step. */
  lemma FlattenLegal(b: Board, player: int, ms: seq<Move>)
    requires Square(b) && MovesOk(b, player, ms)
    ensures forall s :: s in Flatten(ms) ==> LegalStep(b, player, s.from, s.to)
  {
  }

  // ---------------------------------------------------------------- sort

  /** Entries in non-decreasing number of destinations. */
  predicate ByDests(ms: seq<Move>) {
    forall i, j :: 0 <= i < j < |ms| ==> |ms[i].dests| <= |ms[j].dests|
  }

  /** The entries of ms with exactly n destinations, in their order. */
  function WithDests(ms: seq<Move>, n: int): seq<Move> {
    if ms == [] then []
    else if |ms[0].dests| == n then [ms[0]] + WithDests(ms[1..], n)
    else WithDests(ms[1..], n)
  }

  /** Insert m before the first entry with at least as many destinations:
      the result is sorted and holds m and the entries of ms. */
  function Insert(m: Move, ms: seq<Move>): (r: seq<Move>)
    requires ByDests(ms)
    ensures ByDests(r)
    ensures forall x :: x in r ==> x == m || x in ms
  {
    if ms == [] then [m]
    else if |m.dests| <= |ms[0].dests| then [m] + ms
    else
      var rest := Insert(m, ms[1..]);
      var r := [ms[0]] + rest;
      forall i, j | 0 <= i < j < |r|
        ensures |r[i].dests| <= |r[j].dests|
      {
        assert r[j] == rest[j - 1] && r[j] in rest;
        if i > 0 {
          assert r[i] == rest[i - 1];
        }
      }
      r
  }

  /** Insertion adds m and loses no entry. */
  lemma {:induction false} InsertPerm(m: Move, ms: seq<Move>)
    requires ByDests(ms)
    ensures multiset(Insert(m, ms)) == multiset(ms) + multiset{m}
  {
    if ms != [] && |m.dests| > |ms[0].dests| {
      InsertPerm(m, ms[1..]);
      assert ms == [ms[0]] + ms[1..];
      assert Insert(m, ms) == [ms[0]] + Insert(m, ms[1..]);
    }
  }

  /** Insertion keeps the relative order of the entries with any given
      number of destinations, and puts m after those with as many as it. */
  lemma {:induction false} InsertStable(m: Move, ms: seq<Move>, n: int)
    requires ByDests(ms)
    ensures WithDests(Insert(m, ms), n) == if |m.dests| == n then [m] + WithDests(ms, n) else WithDests(ms, n)
  {
    if ms == [] {
    } else if |m.dests| <= |ms[0].dests| {
      assert ([m] + ms)[1..] == ms;
    } else {
      var rest := Insert(m, ms[1..]);
      assert ([ms[0]] + rest)[1..] == rest;
      InsertStable(m, ms[1..], n);
      if |m.dests| == n {
        assert |ms[0].dests| < n;
      }
    }
  }

  /** The stable sort by number of destinations: sorted, a permutation,
      and entries with equally many destinations keep their relative
      order. */
  function SortByDests(ms: seq<Move>): (r: seq<Move>)
    ensures ByDests(r)
    ensures multiset(r) == multiset(ms)
  {
    if ms == [] then []
    else
      var rest := SortByDests(ms[1..]);
      InsertPerm(ms[0], rest);
      assert ms == [ms[0]] + ms[1..];
      Insert(ms[0], rest)
  }

  /** Sorting by number of destinations is stable: the entries with any
      given number of destinations come out in their original order. */
  lemma {:induction false} SortStable(ms: seq<Move>, n: int)
    ensures WithDests(SortByDests(ms), n) == WithDests(ms, n)
  {
    if ms != [] {
      SortStable(ms[1..], n);
      InsertStable(ms[0], SortByDests(ms[1..]), n);
    }
  }

  // ------------------------------------------------------------- chances

  /** A source of random draws: the k-th draw is roll(k). */
  type Roll = nat -> nat

  /** A uniform choice from a non-empty list with one draw. */
  function Choice<T>(xs: seq<T>, roll: Roll, k: nat): (r: T)
    requires |xs| > 0
    ensures r in xs
  {
    xs[roll(k) % |xs|]
  }

  /** Swap the entries at i and j. */
  function Swap<T>(xs: seq<T>, i: nat, j: nat): (r: seq<T>)
    requires i < |xs| && j < |xs|
    ensures |r| == |xs| && r[i] == xs[j] && r[j] == xs[i]
    ensures forall k :: 0 <= k < |xs| && k != i && k != j ==> r[k] == xs[k]
    ensures multiset(r) == multiset(xs)
  {
    xs[i := xs[j]][j := xs[i]]
  }

  /** The Fisher-Yates shuffle from position i down to position 1, each
      position swapped with one drawn uniformly at or below it, drawing
      from k on. Returns the permuted list and the next unused draw. */
  function ShuffleFrom<T>(xs: seq<T>, i: nat, roll: Roll, k: nat): (r: (seq<T>, nat))
    requires i < |xs|
    ensures multiset(r.0) == multiset(xs) && |r.0| == |xs|
    ensures r.1 == k + i
    decreases i
  {
    if i == 0 then (xs, k)
    else ShuffleFrom(Swap(xs, i, roll(k) % (i + 1)), i - 1, roll, k + 1)
  }

  /** Shuffle a list in place, one draw per position above the first. */
  function Shuffle<T>(xs: seq<T>, roll: Roll, k: nat): (r: (seq<T>, nat))
    ensures multiset(r.0) == multiset(xs) && |r.0| == |xs|
    ensures r.1 == k + (if |xs| == 0 then 0 else |xs| - 1)
  {
    if |xs| == 0 then (xs, k) else ShuffleFrom(xs, |xs| - 1, roll, k)
  }

  /** A shuffle loses and invents no entry. */
  lemma ShuffleMembers<T>(xs: seq<T>, roll: Roll, k: nat)
    ensures forall x :: x in Shuffle(xs, roll, k).0 <==> x in xs
  {
    var r := Shuffle(xs, roll, k).0;
    forall x
      ensures x in r <==> x in xs
    {
      assert x in r <==> x in multiset(r);
      assert x in xs <==> x in multiset(xs);
    }
  }
}
