/**
 * Comparing solved hands and picking the winners (`Hand.compare`,
 * `Hand.loseTo`, `Hand.winners`). Comparison reads only a hand's strength
 * rank and its chosen cards, so a solved hand is taken here as that pair
 * of values; the Hand class in module Hands hands out such a snapshot.
 */
module Ranking {
  import opened Seqs
  import opened Cards

  /** What comparison reads of a solved hand. */
  datatype Solved = Solved(rank: int, cards: seq<Card>)

  /** `compare` looks at card positions 0 through 4 only. */
  const Compared: nat := 5

  /** Both hands have a card at position j and their ranks differ there. */
  predicate DecidedAt(a: seq<Card>, b: seq<Card>, j: nat) {
    j < |a| && j < |b| && a[j].rank != b[j].rank
  }

  /** No position in [i, j) decides the comparison. */
  ghost predicate AgreeBetween(a: seq<Card>, b: seq<Card>, i: nat, j: nat) {
    forall m :: i <= m < j ==> !DecidedAt(a, b, m)
  }

  /**
   * The card loop of `compare` from position i on: 1 when the first deciding
   * position has the lower card in a, -1 when it has the higher, 0 when no
   * position decides. A position where either hand has no card is skipped.
   */
  function CompareFrom(a: seq<Card>, b: seq<Card>, i: nat): (r: int)
    ensures -1 <= r <= 1
    decreases Compared - i
  {
    if i >= Compared then 0
    else if i < |a| && i < |b| && a[i].rank < b[i].rank then 1
    else if i < |a| && i < |b| && a[i].rank > b[i].rank then -1
    else CompareFrom(a, b, i + 1)
  }

  /** `h.compare(o)`: the stronger hand type wins, then the cards decide. 1 means h loses. */
  function Compare(h: Solved, o: Solved): (r: int)
    ensures -1 <= r <= 1
  {
    if h.rank < o.rank then 1
    else if h.rank > o.rank then -1
    else CompareFrom(h.cards, o.cards, 0)
  }

  /** `h.loseTo(o)`. */
  predicate LoseTo(h: Solved, o: Solved) {
    Compare(h, o) > 0
  }

  /**
   * The card comparison is decided by the first deciding position in [i, 5):
   * it is 0 exactly when there is none, and otherwise its sign says which
   * hand has the lower card there.
   */
  lemma {:induction false} CompareFromSpec(a: seq<Card>, b: seq<Card>, i: nat)
    requires i <= Compared
    ensures CompareFrom(a, b, i) == 0 <==> AgreeBetween(a, b, i, Compared)
    ensures forall j :: i <= j < Compared && DecidedAt(a, b, j) && AgreeBetween(a, b, i, j) ==>
      (CompareFrom(a, b, i) == 1 <==> a[j].rank < b[j].rank) && CompareFrom(a, b, i) != 0
    decreases Compared - i
  {
    if i < Compared && !DecidedAt(a, b, i) {
      CompareFromSpec(a, b, i + 1);
    }
  }

  /** Swapping the two hands flips the sign of the card comparison. */
  lemma {:induction false} CompareFromAntisymmetric(a: seq<Card>, b: seq<Card>, i: nat)
    ensures CompareFrom(b, a, i) == -CompareFrom(a, b, i)
    decreases Compared - i
  {
    if i < Compared && !DecidedAt(a, b, i) {
      CompareFromAntisymmetric(a, b, i + 1);
    }
  }

  /** Swapping the two hands flips the sign of `compare`: h loses to o exactly when o beats h. */
  lemma CompareAntisymmetric(h: Solved, o: Solved)
    ensures Compare(o, h) == -Compare(h, o)
    ensures LoseTo(h, o) <==> Compare(o, h) < 0
  {
    CompareFromAntisymmetric(h.cards, o.cards, 0);
  }

  /** A hand ties with itself, so it never loses to itself. */
  lemma CompareSelf(h: Solved)
    ensures Compare(h, h) == 0 && !LoseTo(h, h)
  {
    CompareFromSpec(h.cards, h.cards, 0);
  }

  /** A stronger hand type wins whatever the cards; for equal types the first differing card decides. */
  lemma CompareSpec(h: Solved, o: Solved)
    ensures h.rank > o.rank ==> Compare(h, o) == -1
    ensures h.rank == o.rank ==> (Compare(h, o) == 0 <==> AgreeBetween(h.cards, o.cards, 0, Compared))
    ensures h.rank == o.rank ==> forall j :: 0 <= j < Compared && DecidedAt(h.cards, o.cards, j) && AgreeBetween(h.cards, o.cards, 0, j) ==>
      (LoseTo(h, o) <==> h.cards[j].rank < o.cards[j].rank)
  {
    CompareFromSpec(h.cards, o.cards, 0);
  }

  /** Every hand has a card at each compared position. */
  predicate Full(h: Solved) {
    |h.cards| >= Compared
  }

  /**
   * Between full hands, "does not lose to" is transitive, and a loss anywhere
   * in the chain carries through: the card comparison is lexicographic.
   */
  lemma {:induction false} CompareFromTransitive(a: seq<Card>, b: seq<Card>, c: seq<Card>, i: nat)
    requires |a| >= Compared && |b| >= Compared && |c| >= Compared
    ensures CompareFrom(a, b, i) <= 0 && CompareFrom(b, c, i) <= 0 ==> CompareFrom(a, c, i) <= 0
    ensures CompareFrom(a, b, i) == 1 && CompareFrom(b, c, i) >= 0 ==> CompareFrom(a, c, i) == 1
    decreases Compared - i
  {
    if i < Compared && a[i].rank == b[i].rank && b[i].rank == c[i].rank {
      CompareFromTransitive(a, b, c, i + 1);
    }
  }

  /**
   * `compare` orders full hands as a total preorder: "does not lose to" is
   * transitive, and a loss followed by a loss or a tie is a loss.
   */
  lemma CompareTransitive(a: Solved, b: Solved, c: Solved)
    requires Full(a) && Full(b) && Full(c)
    ensures Compare(a, b) <= 0 && Compare(b, c) <= 0 ==> Compare(a, c) <= 0
    ensures Compare(a, b) > 0 && Compare(b, c) >= 0 ==> Compare(a, c) > 0
  {
    CompareFromTransitive(a.cards, b.cards, c.cards, 0);
  }

  // --------------------------------------------------------------- winners

  /** `Math.max` over the ranks of a non-empty list. */
  function MaxRank(hands: seq<Solved>): (m: int)
    requires hands != []
    ensures forall h :: h in hands ==> h.rank <= m
    ensures exists h :: h in hands && h.rank == m
  {
    if |hands| == 1 then hands[0].rank
    else
      var rest := MaxRank(hands[1..]);
      assert forall h :: h in hands[1..] ==> h in hands;
      if hands[0].rank > rest then hands[0].rank else rest
  }

  /** The hands of the highest rank present (none for an empty list, where `Math.max` gives -Infinity). */
  function Highest(hands: seq<Solved>): seq<Solved> {
    if hands == [] then [] else Filter(hands, (h: Solved) => h.rank == MaxRank(hands))
  }

  /** h loses to no hand of the list. */
  predicate Unbeaten(h: Solved, among: seq<Solved>) {
    forall o :: o in among ==> !LoseTo(h, o)
  }

  /**
   * `Hand.winners`: the hands of the highest rank that lose to no other hand
   * of that rank, in their original order. In the standard game every hand
   * qualifies, so the first filter of the source keeps them all.
   */
  function WinnersOf(hands: seq<Solved>): seq<Solved> {
    var top := Highest(hands);
    Filter(top, (h: Solved) => Unbeaten(h, top))
  }

  /** A hand wins exactly when it is in the list, no hand has a higher rank, and it loses to no hand of its rank. */
  lemma WinnersMembership(hands: seq<Solved>, h: Solved)
    ensures h in WinnersOf(hands) <==>
      && h in hands
      && (forall o :: o in hands ==> o.rank <= h.rank)
      && (forall o :: o in hands && o.rank == h.rank ==> !LoseTo(h, o))
  {
    if hands != [] {
      var m := MaxRank(hands);
      var top := Highest(hands);
      assert forall o :: o in top <==> o in hands && o.rank == m;
      if h in hands && (forall o :: o in hands ==> o.rank <= h.rank) {
        var w :| w in hands && w.rank == m;
        assert h.rank == m;
      }
    }
  }

  /** h wins among hands: it is one of them, none ranks higher, and it loses to none of its rank. */
  predicate Wins(h: Solved, hands: seq<Solved>) {
    && h in hands
    && (forall o :: o in hands ==> o.rank <= h.rank)
    && (forall o :: o in hands && o.rank == h.rank ==> !LoseTo(h, o))
  }

  /**
   * The winners are the input list with the losers removed: every hand of
   * the list that wins stays, duplicates included, in its original order.
   */
  lemma WinnersKeepInputOrder(hands: seq<Solved>)
    ensures WinnersOf(hands) == Filter(hands, (h: Solved) => Wins(h, hands))
  {
    if hands != [] {
      var top := Highest(hands);
      forall h | h in hands ensures Wins(h, hands) == (h.rank == MaxRank(hands) && Unbeaten(h, top)) {
        WinnersMembership(hands, h);
      }
      FilterThenFilter(hands, (h: Solved) => h.rank == MaxRank(hands), (h: Solved) => Unbeaten(h, top),
        (h: Solved) => Wins(h, hands));
    }
  }

  /** Any two winners tie. */
  lemma WinnersTie(hands: seq<Solved>, a: Solved, b: Solved)
    requires a in WinnersOf(hands) && b in WinnersOf(hands)
    ensures Compare(a, b) == 0
  {
    WinnersMembership(hands, a);
    WinnersMembership(hands, b);
    CompareAntisymmetric(a, b);
  }

  /** A lone hand wins. */
  lemma WinnersOfOne(h: Solved)
    ensures WinnersOf([h]) == [h]
  {
    CompareSelf(h);
    WinnersMembership([h], h);
    assert Highest([h]) == [h];
  }

  /** A non-empty list of full hands has a hand that loses to none of them. */
  lemma {:induction false} Strongest(hands: seq<Solved>) returns (m: Solved)
    requires hands != [] && forall h :: h in hands ==> Full(h)
    ensures m in hands && Unbeaten(m, hands)
  {
    if |hands| == 1 {
      m := hands[0];
      CompareSelf(m);
    } else {
      var rest := hands[1..];
      assert forall h :: h in rest ==> h in hands;
      var best := Strongest(rest);
      var first := hands[0];
      assert forall h :: h in hands ==> h == first || h in rest;
      if Compare(first, best) <= 0 {
        m := first;
        CompareSelf(first);
        forall o | o in rest ensures !LoseTo(first, o) {
          CompareTransitive(first, best, o);
        }
      } else {
        m := best;
        CompareAntisymmetric(first, best);
      }
    }
  }

  /** Among full hands, a non-empty list always has a winner. */
  lemma WinnersNonEmpty(hands: seq<Solved>)
    requires hands != [] && forall h :: h in hands ==> Full(h)
    ensures WinnersOf(hands) != []
  {
    var top := Highest(hands);
    var m0 := MaxRank(hands);
    var w :| w in hands && w.rank == m0;
    assert w in top;
    assert forall h :: h in top ==> h in hands;
    var m := Strongest(top);
    assert m in WinnersOf(hands);
  }

  /**
   * The loop inside the last filter of `Hand.winners`: walk the list and stop
   * at the first hand h loses to.
   */
  method LosesToAny(h: Solved, among: seq<Solved>) returns (lose: bool)
    ensures lose <==> !Unbeaten(h, among)
  {
    lose := false;
    var i := 0;
    while i < |among|
      invariant 0 <= i <= |among|
      invariant !lose
      invariant forall j :: 0 <= j < i ==> !LoseTo(h, among[j])
    {
      lose := LoseTo(h, among[i]);
      if lose {
        break;
      }
      i := i + 1;
    }
  }

  /** `Hand.winners`, step by step: find the highest rank, keep its hands, drop each that loses to one of them. */
  method Winners(hands: seq<Solved>) returns (winners: seq<Solved>)
    ensures winners == WinnersOf(hands)
  {
    if hands == [] {
      return [];
    }
    var highestRank := HighestRank(hands);
    var top := SelectWhere(hands, (h: Solved) => h.rank == highestRank);
    winners := DropLosers(top);
  }

  /** `Math.max.apply(Math, hands.map(h => h.rank))` for a non-empty list. */
  method HighestRank(hands: seq<Solved>) returns (highestRank: int)
    requires hands != []
    ensures highestRank == MaxRank(hands)
  {
    highestRank := hands[0].rank;
    var i := 1;
    while i < |hands|
      invariant 1 <= i <= |hands|
      invariant forall j :: 0 <= j < i ==> hands[j].rank <= highestRank
      invariant exists j :: 0 <= j < i && hands[j].rank == highestRank
    {
      if hands[i].rank > highestRank {
        highestRank := hands[i].rank;
      }
      i := i + 1;
    }
    MaxIsHighestRank(hands, highestRank);
  }

  /** The last filter of `Hand.winners`: keep each hand that loses to none of the list. */
  method DropLosers(top: seq<Solved>) returns (winners: seq<Solved>)
    ensures winners == Filter(top, (h: Solved) => Unbeaten(h, top))
  {
    winners := [];
    var i := 0;
    while i < |top|
      invariant 0 <= i <= |top|
      invariant winners == Filter(top[..i], (h: Solved) => Unbeaten(h, top))
    {
      var lose := LosesToAny(top[i], top);
      SurvivorsSnoc(top, i);
      if !lose {
        winners := winners + [top[i]];
      }
      i := i + 1;
    }
    assert top[..|top|] == top;
  }
  /** The unbeaten hands among the first i + 1: those among the first i, then hand i if it is unbeaten. */
  lemma SurvivorsSnoc(top: seq<Solved>, i: nat)
    requires i < |top|
    ensures Filter(top[..i + 1], (h: Solved) => Unbeaten(h, top))
      == Filter(top[..i], (h: Solved) => Unbeaten(h, top)) + (if Unbeaten(top[i], top) then [top[i]] else [])
  {
    assert top[..i + 1] == top[..i] + [top[i]];
    FilterSnoc(top[..i], top[i], (h: Solved) => Unbeaten(h, top));
  }


  /** The maximum found by a scan is the one MaxRank describes. */
  lemma MaxIsHighestRank(hands: seq<Solved>, m: int)
    requires hands != []
    requires forall j :: 0 <= j < |hands| ==> hands[j].rank <= m
    requires exists j :: 0 <= j < |hands| && hands[j].rank == m
    ensures MaxRank(hands) == m
  {
    var j :| 0 <= j < |hands| && hands[j].rank == m;
    assert hands[j] in hands;
    var w :| w in hands && w.rank == MaxRank(hands);
  }

  /** `Array.filter` as a loop: the elements satisfying p, in order. */
  method SelectWhere(s: seq<Solved>, p: Solved -> bool) returns (r: seq<Solved>)
    ensures r == Filter(s, p)
  {
    r := [];
    var i := 0;
    while i < |s|
      invariant 0 <= i <= |s|
      invariant r == Filter(s[..i], p)
    {
      FilterSnoc(s[..i], s[i], p);
      assert s[..i + 1] == s[..i] + [s[i]];
      if p(s[i]) {
        r := r + [s[i]];
      }
      i := i + 1;
    }
    assert s[..|s|] == s;
  }
}
