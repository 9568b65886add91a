/**
 * The Hand class and `Hand.solve`. A Hand is built for one evaluator (its
 * kind): the constructor finds the evaluator's strength rank, sorts the card
 * pool, indexes it by suit and by rank, then runs the evaluator's `solve`,
 * which fills `cards` and reports whether the hand type is present.
 * `Classify` parses the card strings and tries the evaluators of the
 * standard game from strongest to weakest, keeping the first that succeeds.
 */
module Hands {
  import opened Seqs
  import opened Cards
  import opened Indices
  import opened Straights
  import opened Rules
  import opened Evaluators
  import Ranking

  /** Sorting keeps every card a face card. */
  lemma SortKeepsRanked(s: seq<Card>)
    requires AllRanked(s)
    ensures AllRanked(SortByRank(s))
  {
    forall c | c in SortByRank(s) ensures Ranked(c) {
      assert c in multiset(SortByRank(s));
      assert c in multiset(s);
    }
  }

  /** The cards pushed under any suit of a ranked pool are ranked. */
  lemma SuitCardsRanked(pool: seq<Card>, k: nat)
    requires AllRanked(pool) && k < |SuitOrder(pool)|
    ensures AllRanked(CardsForFlush(SuitOrder(pool), k))
  {
    SuitOrderSpec(pool);
    var e := SuitOrder(pool)[k].cards;
    assert e == OfSuit(pool, SuitOrder(pool)[k].suit);
    SortKeepsRanked(e);
  }

  /**
   * Straight's `solve` with no wild card and no wheel: the run `getGaps`
   * finds, cut to the hand size when it is long enough.
   */
  method SolveStraightOf(pool: seq<Card>) returns (straight: seq<Card>)
    requires AllRanked(pool)
    ensures straight == StraightCards(pool)
    ensures |straight| >= SfQualify ==> |straight| == CardsInHand
  {
    straight := GetGaps(pool);
    GapCardsShape(pool);
    if |straight| >= SfQualify {
      straight := straight[..CardsInHand];
    }
  }

  /**
   * The search of StraightFlush's `solve`: the first suit holding at least
   * sfQualify cards goes to a new Straight evaluator, which sorts it and runs
   * its own `solve`; the straight it finds, if long enough, is the hand.
   */
  method StraightFlushOf(suits: seq<SuitEntry>, ghost pool: seq<Card>) returns (found: seq<Card>)
    requires AllRanked(pool) && suits == SuitIndex(pool)
    ensures found == StraightFlushCards(pool)
  {
    var order := ForInOrder(suits);
    var j := FirstFlushSuit(order);
    StraightFlushCardsAt(pool, j);
    found := [];
    if j < |order| {
      SuitCardsRanked(pool, j);
      found := StraightOfSuit(CardsForFlush(order, j));
    }
  }

  /** The loop over `this.suits` in StraightFlush's `solve`: the first suit holding at least sfQualify cards. */
  method FirstFlushSuit(suits: seq<SuitEntry>) returns (j: nat)
    ensures j <= |suits|
    ensures j < |suits| ==> |CardsForFlush(suits, j)| >= SfQualify
    ensures forall m :: 0 <= m < j ==> |CardsForFlush(suits, m)| < SfQualify
  {
    j := 0;
    while j < |suits|
      invariant 0 <= j <= |suits|
      invariant forall m :: 0 <= m < j ==> |CardsForFlush(suits, m)| < SfQualify
    {
      if |CardsForFlush(suits, j)| >= SfQualify {
        break;
      }
      j := j + 1;
    }
  }

  /** `new Straight(possibleStraight, game)`: its constructor sorts the cards, its `solve` looks for a straight. */
  method StraightOfSuit(possibleStraight: seq<Card>) returns (found: seq<Card>)
    requires AllRanked(possibleStraight)
    ensures var straight := StraightCards(SortByRank(possibleStraight));
      found == if |straight| >= SfQualify then straight else []
  {
    SortKeepsRanked(possibleStraight);
    var straight := SolveStraightOf(SortByRank(possibleStraight));
    found := if |straight| >= SfQualify then straight else [];
  }

  /**
   * What the evaluator of kind k leaves behind on the sorted pool: the cards
   * it chose, what `solve()` returned, and whether it named the hand
   * "Royal Flush".
   */
  ghost predicate Solved(k: Kind, pool: seq<Card>, cards: seq<Card>, possible: bool, royal: bool)
    requires AllRanked(pool)
  {
    && cards == Selected(k, pool)
    && possible == Possible(k, pool)
    && royal == ((k == StraightFlush || k == RoyalFlush) && IsRoyal(cards))
  }

  class Hand {
    /** The evaluator this hand was built for. */
    const kind: Kind
    /** The evaluator's strength: the number of evaluators minus its position in the table. */
    const rank: int
    /** The pool, sorted by rank, descending. */
    const cardPool: seq<Card>
    /** `this.suits`: the cards under each suit, keys in insertion order. */
    const suits: seq<SuitEntry>
    /** `this.values` after `reverse()`. */
    const values: seq<seq<Card>>
    /** The cards the evaluator chose. */
    var cards: seq<Card>
    /** What `solve()` returned. */
    var isPossible: bool
    /** The straight flush evaluators set the name "Royal Flush" when the best card is an ace. */
    var royal: bool

    /** The strength matches the evaluator and the indices agree with the sorted pool. */
    ghost predicate Valid()
    {
      && rank == StrengthRank(kind)
      && AllRanked(cardPool)
      && SortedDesc(cardPool)
      && suits == SuitIndex(cardPool)
      && values == RankIndex(cardPool)
    }

    /** What `compare` reads of the hand. */
    function Snapshot(): Ranking.Solved
      reads this
    {
      Ranking.Solved(rank, cards)
    }

    /**
     * `new hands[i](cards, game)`: the strength rank, the sorted pool, its
     * indices, then `solve()`. HighCard's `solve` reads the first card of
     * the pool and so needs one.
     */
    constructor(pool: seq<Card>, k: Kind)
      requires AllRanked(pool)
      requires k == HighCard ==> pool != []
      ensures kind == k && rank == StrengthRank(k)
      ensures cardPool == SortByRank(pool) && Valid()
      ensures Solved(kind, cardPool, cards, isPossible, royal)
    {
      kind := k;
      var strength := StrengthOf(k);
      rank := strength;
      var sorted := SortByRank(pool);
      SortKeepsRanked(pool);
      cardPool := sorted;
      var bySuit, byRank := IndexPool(sorted);
      suits := bySuit;
      values := byRank;
      cards := [];
      royal := false;
      new;
      Solve();
    }

    /** The loop of the constructor that looks the evaluator up in the game's table. */
    static method StrengthOf(k: Kind) returns (rank: int)
      ensures rank == StrengthRank(k)
    {
      var i := 0;
      while i < |HandValues| && HandValues[i] != k
        invariant 0 <= i <= |HandValues|
        invariant forall j :: 0 <= j < i ==> HandValues[j] != k
      {
        i := i + 1;
      }
      PositionOfIs(HandValues, k, i);
      StrengthIsTablePosition(k);
      rank := |HandValues| - i;
    }

    /** The loop of the constructor over the sorted pool that fills `this.suits` and `this.values`, then reverses `values`. */
    static method IndexPool(pool: seq<Card>) returns (bySuit: seq<SuitEntry>, byRank: seq<seq<Card>>)
      requires AllRanked(pool)
      ensures bySuit == SuitIndex(pool)
      ensures byRank == RankIndex(pool)
    {
      bySuit := [];
      var slots: seq<seq<Card>> := [];
      var i := 0;
      while i < |pool|
        invariant 0 <= i <= |pool|
        invariant AllRanked(pool[..i])
        invariant bySuit == SuitIndex(pool[..i])
        invariant IndexesRanks(slots, pool[..i])
      {
        var card := pool[i];
        assert pool[..i + 1] == pool[..i] + [card];
        assert pool[..i + 1][..i] == pool[..i];
        ghost var before := bySuit;
        var slot := SlotOf(bySuit, card.suit);
        if slot == |bySuit| {
          bySuit := bySuit + [SuitEntry(card.suit, [])];
        }
        bySuit := bySuit[slot := SuitEntry(card.suit, bySuit[slot].cards + [card])];
        if slot == |before| {
          assert [] + [card] == [card];
          assert bySuit == before + [SuitEntry(card.suit, [card])];
        }
        assert bySuit == AddToSuit(before, card);
        IndexesRanksStep(slots, pool[..i], card);
        if card.rank >= |slots| {
          slots := slots + seq(card.rank + 1 - |slots|, _ => []);
        }
        slots := slots[card.rank := slots[card.rank] + [card]];
        i := i + 1;
      }
      assert pool[..i] == pool;
      byRank := Reverse(slots);
      ReversedRanksAreRankIndex(slots, pool);
    }

    /** `this.solve()` of the hand's evaluator. */
    method Solve()
      requires Valid() && cards == [] && !royal
      requires kind == HighCard ==> cardPool != []
      modifies this`cards, this`royal, this`isPossible
      ensures Solved(kind, cardPool, cards, isPossible, royal)
    {
      var possible: bool;
      if kind in {StraightFlush, RoyalFlush, Flush} {
        possible := SolveSuited();
      } else if kind in {Straight, HighCard} {
        possible := SolveRun();
      } else {
        possible := SolveRanked();
      }
      isPossible := possible;
    }

    /** The evaluators that look at the cards of one suit: StraightFlush, RoyalFlush and Flush. */
    method SolveSuited() returns (possible: bool)
      requires Valid() && cards == [] && !royal
      requires kind in {StraightFlush, RoyalFlush, Flush}
      modifies this`cards, this`royal
      ensures Solved(kind, cardPool, cards, possible, royal)
    {
      if kind == Flush {
        possible := SolveFlush();
      } else {
        var result := SolveStraightFlush();
        possible := if kind == RoyalFlush then result && royal else result;
      }
    }

    /** The evaluators that look at the whole pool: Straight and HighCard. */
    method SolveRun() returns (possible: bool)
      requires Valid() && cards == [] && !royal
      requires kind in {Straight, HighCard}
      requires kind == HighCard ==> cardPool != []
      modifies this`cards
      ensures Solved(kind, cardPool, cards, possible, royal)
    {
      if kind == Straight {
        cards := SolveStraightOf(cardPool);
        possible := |cards| >= SfQualify;
      } else {
        possible := SolveHighCard();
      }
    }

    /** The evaluators that look at the rank buckets: FourOfAKind, FullHouse, ThreeOfAKind, TwoPair and OnePair. */
    method SolveRanked() returns (possible: bool)
      requires Valid() && cards == [] && !royal
      requires kind in {FourOfAKind, FullHouse, ThreeOfAKind, TwoPair, OnePair}
      modifies this`cards
      ensures Solved(kind, cardPool, cards, possible, royal)
    {
      match kind {
      case FourOfAKind =>
        possible := SolveOfAKind(4);
      case FullHouse =>
        possible := SolveFullHouse();
      case ThreeOfAKind =>
        possible := SolveOfAKind(3);
      case TwoPair =>
        possible := SolveTwoPair();
      case OnePair =>
        possible := SolveOfAKind(2);
      }
    }

    /**
     * FourOfAKind, ThreeOfAKind and OnePair: the first rank bucket (highest
     * rank first) holding exactly `size` cards, then the best other cards.
     */
    method SolveOfAKind(size: nat) returns (possible: bool)
      requires AllRanked(cardPool) && values == RankIndex(cardPool) && cards == [] && 2 <= size <= 4
      modifies this`cards
      ensures cards == OfAKind(cardPool, size)
      ensures possible == (|cards| >= size)
    {
      var i := 0;
      while i < |values|
        invariant 0 <= i <= |values|
        invariant forall j :: 0 <= j < i ==> |values[j]| != size
        invariant cards == []
      {
        if |values[i]| == size {
          cards := values[i];
          cards := cards + Take(NextHighest(cardPool, cards), CardsInHand - size);
          break;
        }
        i := i + 1;
      }
      OfAKindAt(cardPool, size, i);
      possible := |cards| >= size;
    }

    /** FullHouse: a bucket of exactly three, then the highest other bucket of at least two, then kickers. */
    method SolveFullHouse() returns (possible: bool)
      requires AllRanked(cardPool) && values == RankIndex(cardPool) && cards == []
      modifies this`cards
      ensures cards == FullHouseCards(cardPool)
      ensures possible == (|cards| >= 5)
    {
      var i := 0;
      while i < |values|
        invariant 0 <= i <= |values|
        invariant forall j :: 0 <= j < i ==> |values[j]| != 3
        invariant cards == []
      {
        if |values[i]| == 3 {
          cards := values[i];
          break;
        }
        i := i + 1;
      }
      ghost var triple := i;
      ghost var pair := |values|;
      if |cards| == 3 {
        i := 0;
        while i < |values|
          invariant 0 <= i <= |values|
          invariant forall j :: 0 <= j < i ==> !(values[j] != [] && values[j][0].value != values[triple][0].value && |values[j]| >= 2)
          invariant cards == values[triple]
        {
          var bucket := values[i];
          if !(bucket != [] && cards[0].value == bucket[0].value) && |bucket| >= 2 {
            cards := cards + bucket;
            cards := cards + Take(NextHighest(cardPool, cards), CardsInHand - 5);
            break;
          }
          i := i + 1;
        }
        pair := i;
      }
      FullHouseCardsAt(cardPool, triple, pair);
      possible := |cards| >= 5;
    }

    /** TwoPair: the first bucket of exactly two, then the next such bucket and one kicker. */
    method SolveTwoPair() returns (possible: bool)
      requires AllRanked(cardPool) && values == RankIndex(cardPool) && cards == []
      modifies this`cards
      ensures cards == TwoPairCards(cardPool)
      ensures possible == (|cards| >= 4)
    {
      ghost var first: nat := |values|;
      ghost var second: nat := |values|;
      var i := 0;
      while i < |values|
        invariant 0 <= i <= |values|
        invariant cards == [] ==> first == |values| && forall j :: 0 <= j < i ==> |values[j]| != 2
        invariant cards != [] ==> first < i && |values[first]| == 2 && cards == values[first]
        invariant cards != [] ==> forall j :: 0 <= j < first ==> |values[j]| != 2
        invariant cards != [] ==> forall j :: first < j < i ==> |values[j]| != 2
      {
        if |cards| > 0 && |values[i]| == 2 {
          cards := cards + values[i];
          cards := cards + Take(NextHighest(cardPool, cards), CardsInHand - 4);
          second := i;
          break;
        } else if |values[i]| == 2 {
          cards := cards + values[i];
          first := i;
        }
        i := i + 1;
      }
      TwoPairCardsAt(cardPool, first, second);
      possible := |cards| >= 4;
    }

    /** Flush: the cards of the first suit, in `for..in` order, holding at least sfQualify cards. */
    method SolveFlush() returns (possible: bool)
      requires suits == SuitIndex(cardPool) && cards == []
      modifies this`cards
      ensures cards == FlushCards(cardPool)
      ensures possible == (|cards| >= SfQualify)
    {
      var order := ForInOrder(suits);
      var j := 0;
      while j < |order|
        invariant 0 <= j <= |order|
        invariant FirstSuitWith(order, SfQualify, j) == FirstSuitWith(order, SfQualify, 0)
        invariant cards == []
      {
        var candidates := CardsForFlush(order, j);
        if |candidates| >= SfQualify {
          cards := candidates;
          break;
        }
        j := j + 1;
      }
      possible := |cards| >= SfQualify;
    }

    /**
     * StraightFlush: the first suit with at least sfQualify cards is handed to
     * a Straight evaluator; its straight, if any, is the hand. An ace-high one
     * is named "Royal Flush".
     */
    method SolveStraightFlush() returns (possible: bool)
      requires AllRanked(cardPool) && suits == SuitIndex(cardPool) && cards == []
      modifies this`cards, this`royal
      ensures cards == StraightFlushCards(cardPool)
      ensures possible == (|cards| >= SfQualify)
      ensures royal == IsRoyal(cards)
    {
      cards := StraightFlushOf(suits, cardPool);
      royal := cards != [] && cards[0].rank == AceRank;
      possible := |cards| >= SfQualify;
    }

    /** HighCard: the first cardsInHand cards of the pool, sorted; always succeeds. */
    method SolveHighCard() returns (possible: bool)
      requires cardPool != []
      modifies this`cards
      ensures cards == HighCardCards(cardPool) && cards != []
      ensures possible
    {
      cards := Take(cardPool, CardsInHand);
      cards := SortByRank(cards);
      possible := true;
    }

    /**
     * `compare(a)`: 1 when this hand loses to a, -1 when it beats a, 0 on a
     * tie. The stronger hand type wins; otherwise the first of the five card
     * positions where both hands hold cards of different ranks decides.
     */
    method Compare(a: Hand) returns (result: int)
      ensures result == Ranking.Compare(Snapshot(), a.Snapshot())
    {
      if rank < a.rank {
        return 1;
      } else if rank > a.rank {
        return -1;
      }
      result := 0;
      var i := 0;
      while i <= 4
        invariant 0 <= i <= Ranking.Compared
        invariant result == 0
        invariant Ranking.CompareFrom(cards, a.cards, 0) == Ranking.CompareFrom(cards, a.cards, i)
      {
        if i < |cards| && i < |a.cards| && cards[i].rank < a.cards[i].rank {
          result := 1;
          break;
        } else if i < |cards| && i < |a.cards| && cards[i].rank > a.cards[i].rank {
          result := -1;
          break;
        }
        i := i + 1;
      }
    }

    /** `loseTo(hand)`. */
    method LoseTo(hand: Hand) returns (lose: bool)
      ensures lose == Ranking.LoseTo(Snapshot(), hand.Snapshot())
    {
      var c := Compare(hand);
      lose := c > 0;
    }
  }

  // ------------------------------------------------------------- Hand.solve

  datatype Error = DuplicateCards | NoCards

  datatype Result<T> = Success(value: T) | Failure(error: Error)

  /** Two positions of the input hold the same string. */
  predicate HasDuplicates(input: seq<string>) {
    exists i, j :: 0 <= i < j < |input| && input[i] == input[j]
  }

  /** `cards.map(c => new Card(c))`. */
  function ParseAll(input: seq<string>): (pool: seq<Card>)
    ensures |pool| == |input|
    ensures forall i :: 0 <= i < |input| ==> pool[i] == Parse(input[i])
  {
    seq(|input|, i requires 0 <= i < |input| => Parse(input[i]))
  }

  /** Strings that name a face give ranked cards. */
  lemma ParseAllRanked(input: seq<string>)
    requires forall i :: 0 <= i < |input| ==> IsFace(input[i])
    ensures AllRanked(ParseAll(input))
  {
    forall c | c in ParseAll(input) ensures Ranked(c) {
      var i :| 0 <= i < |input| && ParseAll(input)[i] == c;
      var k := IndexOf(Faces, [input[i][0]]);
      ParseRankIsTablePosition(input[i], k);
    }
  }

  /** A list grown by x has a repeat exactly when it had one or already held x. */
  lemma DuplicatesSnoc(s: seq<string>, x: string)
    ensures HasDuplicates(s + [x]) <==> HasDuplicates(s) || x in s
  {
    var t := s + [x];
    if x in s {
      var a :| 0 <= a < |s| && s[a] == x;
      assert t[a] == t[|s|];
    }
    if HasDuplicates(s) {
      var a, b :| 0 <= a < b < |s| && s[a] == s[b];
      assert t[a] == t[b];
    }
    if HasDuplicates(t) {
      var a, b :| 0 <= a < b < |t| && t[a] == t[b];
      if b == |s| {
        assert s[a] == x;
      } else {
        assert s[a] == s[b];
      }
    }
  }

  /**
   * The duplicate check of the Hand constructor: `new Set(cards).size !==
   * cards.length`, the set of strings built one string at a time.
   */
  method CheckDuplicates(input: seq<string>) returns (duplicates: bool)
    ensures duplicates == HasDuplicates(input)
  {
    var seen: set<string> := {};
    var i := 0;
    while i < |input|
      invariant 0 <= i <= |input|
      invariant seen == set j | 0 <= j < i :: input[j]
      invariant |seen| <= i
      invariant |seen| == i <==> !HasDuplicates(input[..i])
    {
      assert input[..i + 1] == input[..i] + [input[i]];
      assert input[i] in seen <==> input[i] in input[..i];
      DuplicatesSnoc(input[..i], input[i]);
      seen := seen + {input[i]};
      i := i + 1;
    }
    assert input[..i] == input;
    duplicates := |seen| != |input|;
  }

  /** The position of the first true entry of s at or after from, or |s| when there is none. */
  function FirstTrue(s: seq<bool>, from: nat): (i: nat)
    requires from <= |s|
    ensures from <= i <= |s|
    decreases |s| - from
  {
    if from == |s| || s[from] then from else FirstTrue(s, from + 1)
  }

  /** FirstTrue stops on a true entry, if any, having passed only false ones. */
  lemma {:induction false} FirstTrueSpec(s: seq<bool>, from: nat)
    requires from <= |s|
    ensures FirstTrue(s, from) < |s| ==> s[FirstTrue(s, from)]
    ensures forall j :: from <= j < FirstTrue(s, from) ==> !s[j]
    decreases |s| - from
  {
    if from < |s| && !s[from] {
      FirstTrueSpec(s, from + 1);
    }
  }

  /** FirstTrue stops no later than any true entry. */
  lemma FirstTrueAtMost(s: seq<bool>, j: nat)
    requires j < |s| && s[j]
    ensures FirstTrue(s, 0) <= j
  {
    FirstTrueSpec(s, 0);
  }

  /** FirstTrue passes a false entry it has reached. */
  lemma FirstTruePast(s: seq<bool>, i: nat)
    requires i < |s| && FirstTrue(s, 0) >= i && !s[i]
    ensures FirstTrue(s, 0) > i
  {
    FirstTrueSpec(s, 0);
  }

  /** What each evaluator of the table, strongest first, returns on pool. */
  function Outcomes(pool: seq<Card>): (r: seq<bool>)
    requires AllRanked(pool)
    ensures |r| == |HandValues|
  {
    seq(|HandValues|, i requires 0 <= i < |HandValues| => Possible(HandValues[i], pool))
  }

  /** The position in HandValues of the first evaluator that succeeds on pool. */
  function FirstPossible(pool: seq<Card>): (i: nat)
    requires AllRanked(pool)
    ensures i <= |HandValues|
  {
    FirstTrue(Outcomes(pool), 0)
  }

  /** An evaluator the scan reaches and that fails is passed over. */
  lemma FirstPossiblePast(pool: seq<Card>, i: nat)
    requires AllRanked(pool) && i < |HandValues|
    requires FirstPossible(pool) >= i && !Possible(HandValues[i], pool)
    ensures FirstPossible(pool) > i
  {
    var s := Outcomes(pool);
    assert !s[i];
    FirstTruePast(s, i);
  }

  /** The scan stops no later than any evaluator that succeeds. */
  lemma FirstPossibleAtMost(pool: seq<Card>, i: nat)
    requires AllRanked(pool) && i < |HandValues| && Possible(HandValues[i], pool)
    ensures FirstPossible(pool) <= i
  {
    var s := Outcomes(pool);
    assert s[i];
    FirstTrueAtMost(s, i);
  }

  /** HighCard closes the table and always succeeds, so some evaluator does. */
  lemma SomeEvaluatorSucceeds(pool: seq<Card>)
    requires AllRanked(pool)
    ensures FirstPossible(pool) < |HandValues|
  {
    var s := Outcomes(pool);
    assert s[|HandValues| - 1];
    FirstTrueAtMost(s, |HandValues| - 1);
  }

  /**
   * The solved hand is at least as strong as any hand type present in the
   * pool: if evaluator j succeeds, the chosen one has strength at least its.
   */
  lemma SolvedIsStrongest(pool: seq<Card>, j: nat)
    requires AllRanked(pool) && j < |HandValues| && Possible(HandValues[j], pool)
    ensures FirstPossible(pool) <= j
      && StrengthRank(HandValues[FirstPossible(pool)]) >= StrengthRank(HandValues[j])
  {
    var s := Outcomes(pool);
    assert s[j];
    FirstTrueAtMost(s, j);
    StrengthFollowsTableOrder(FirstTrue(s, 0), j);
  }

  /**
   * `Hand.solve(cards)` in the standard game: the duplicate check, then each
   * evaluator in table order until one succeeds. An empty input reaches
   * HighCard, whose `solve` then fails on the missing first card.
   */
  method Classify(input: seq<string>) returns (r: Result<Hand>)
    requires forall i :: 0 <= i < |input| ==> IsFace(input[i])
    ensures r.Failure? <==> HasDuplicates(input) || input == []
    ensures r.Failure? ==> (r.error == DuplicateCards <==> HasDuplicates(input))
    ensures r.Success? ==>
      && fresh(r.value)
      && r.value.cardPool == SortByRank(ParseAll(input))
      && r.value.Valid()
      && FirstPossible(r.value.cardPool) < |HandValues|
      && r.value.kind == HandValues[FirstPossible(r.value.cardPool)]
      && r.value.rank == StrengthRank(r.value.kind)
      && Solved(r.value.kind, r.value.cardPool, r.value.cards, r.value.isPossible, r.value.royal)
      && r.value.isPossible
      && r.value.cards == Selected(r.value.kind, r.value.cardPool)
  {
    var duplicates := CheckDuplicates(input);
    if Standard.descr == "standard" && duplicates {
      return Failure(DuplicateCards);
    }
    if input == [] {
      return Failure(NoCards);
    }
    var pool := ParseAll(input);
    ParseAllRanked(input);
    var hand := FirstSolved(pool);
    r := Success(hand);
  }

  /** The loop of `Hand.solve` over the evaluators, strongest first, stopping at the first that succeeds. */
  method FirstSolved(pool: seq<Card>) returns (hand: Hand)
    requires AllRanked(pool) && pool != []
    ensures fresh(hand)
    ensures hand.cardPool == SortByRank(pool) && hand.Valid()
    ensures FirstPossible(hand.cardPool) < |HandValues|
    ensures hand.kind == HandValues[FirstPossible(hand.cardPool)]
    ensures Solved(hand.kind, hand.cardPool, hand.cards, hand.isPossible, hand.royal)
    ensures hand.isPossible
  {
    ghost var sorted := SortByRank(pool);
    SortKeepsRanked(pool);
    var i := 0;
    hand := new Hand(pool, HandValues[0]);
    while !hand.isPossible && i < |HandValues| - 1
      invariant 0 <= i < |HandValues|
      invariant fresh(hand)
      invariant hand.kind == HandValues[i] && hand.cardPool == sorted && hand.Valid()
      invariant Solved(hand.kind, sorted, hand.cards, hand.isPossible, hand.royal)
      invariant FirstPossible(sorted) >= i
    {
      FirstPossiblePast(sorted, i);
      i := i + 1;
      hand := new Hand(pool, HandValues[i]);
    }
    FirstPossibleAtMost(sorted, i);
  }
}
