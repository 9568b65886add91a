/**
 * The nine evaluators of the standard game, each as the card list its
 * `solve()` leaves in `this.cards` (pattern cards first, then kickers from
 * `nextHighest`), and whether `solve()` reports success. The class methods
 * in module Hands compute these step by step; the lemmas here say what the
 * lists mean.
 */
module Evaluators {
  import opened Seqs
  import opened Cards
  import opened Indices
  import opened Straights
  import opened Rules

  const CardsInHand: nat := Standard.cardsInHand
  const SfQualify: nat := Standard.sfQualify

  /** A pool the Hand constructor can index: every card has a face rank, and it is sorted. */
  predicate PoolOk(pool: seq<Card>) {
    AllRanked(pool) && SortedDesc(pool)
  }

  /** How many pool cards have rank r. */
  function Count(pool: seq<Card>, r: int): nat {
    |OfRank(pool, r)|
  }

  /** The first bucket at or after `from` holding exactly n cards (`getNumCardsByRank(i) === n`), or the number of buckets. */
  function FirstOfSize(v: seq<seq<Card>>, n: nat, from: nat): (k: nat)
    requires from <= |v|
    ensures from <= k <= |v|
    ensures k < |v| ==> |v[k]| == n
    ensures forall j :: from <= j < k ==> |v[j]| != n
    decreases |v| - from
  {
    if from == |v| then |v|
    else if |v[from]| == n then from
    else FirstOfSize(v, n, from + 1)
  }

  /**
   * The first bucket at or after `from` that FullHouse accepts as its pair:
   * not a hole, a different face from the triple's, and at least two cards.
   */
  function FirstPairBesides(v: seq<seq<Card>>, face: string, from: nat): (k: nat)
    requires from <= |v|
    ensures from <= k <= |v|
    ensures k < |v| ==> v[k] != [] && v[k][0].value != face && |v[k]| >= 2
    ensures forall j :: from <= j < k ==> !(v[j] != [] && v[j][0].value != face && |v[j]| >= 2)
    decreases |v| - from
  {
    if from == |v| then |v|
    else if v[from] != [] && v[from][0].value != face && |v[from]| >= 2 then from
    else FirstPairBesides(v, face, from + 1)
  }

  /** The first suit, in the order visited, holding at least n flush candidates, or the number of suits. */
  function FirstSuitWith(suits: seq<SuitEntry>, n: nat, from: nat): (k: nat)
    requires from <= |suits|
    ensures from <= k <= |suits|
    ensures k < |suits| ==> |CardsForFlush(suits, k)| >= n
    ensures forall j :: from <= j < k ==> |CardsForFlush(suits, j)| < n
    decreases |suits| - from
  {
    if from == |suits| then |suits|
    else if |CardsForFlush(suits, from)| >= n then from
    else FirstSuitWith(suits, n, from + 1)
  }

  /** A scan that stops at k, having rejected every bucket before it, found FirstOfSize. */
  lemma {:induction false} FirstOfSizeIs(v: seq<seq<Card>>, n: nat, from: nat, k: nat)
    requires from <= k <= |v|
    requires k < |v| ==> |v[k]| == n
    requires forall j :: from <= j < k ==> |v[j]| != n
    ensures FirstOfSize(v, n, from) == k
    decreases k - from
  {
    if from < k {
      FirstOfSizeIs(v, n, from + 1, k);
    }
  }

  lemma {:induction false} FirstPairBesidesIs(v: seq<seq<Card>>, face: string, from: nat, k: nat)
    requires from <= k <= |v|
    requires k < |v| ==> v[k] != [] && v[k][0].value != face && |v[k]| >= 2
    requires forall j :: from <= j < k ==> !(v[j] != [] && v[j][0].value != face && |v[j]| >= 2)
    ensures FirstPairBesides(v, face, from) == k
    decreases k - from
  {
    if from < k {
      FirstPairBesidesIs(v, face, from + 1, k);
    }
  }

  lemma {:induction false} FirstSuitWithIs(suits: seq<SuitEntry>, n: nat, from: nat, k: nat)
    requires from <= k <= |suits|
    requires k < |suits| ==> |CardsForFlush(suits, k)| >= n
    requires forall j :: from <= j < k ==> |CardsForFlush(suits, j)| < n
    ensures FirstSuitWith(suits, n, from) == k
    decreases k - from
  {
    if from < k {
      FirstSuitWithIs(suits, n, from + 1, k);
    }
  }

  // ------------------------------------------------------------ evaluators

  /** FourOfAKind, ThreeOfAKind and OnePair: the highest bucket of exactly `size` cards, then kickers. */
  function OfAKind(pool: seq<Card>, size: nat): seq<Card>
    requires AllRanked(pool) && size <= CardsInHand
  {
    var v := RankIndex(pool);
    var k := FirstOfSize(v, size, 0);
    if k == |v| then [] else v[k] + Take(NextHighest(pool, v[k]), CardsInHand - size)
  }

  /** FullHouse: the highest bucket of exactly three, then all cards of the highest other bucket of two or more. */
  function FullHouseCards(pool: seq<Card>): seq<Card>
    requires AllRanked(pool)
  {
    var v := RankIndex(pool);
    var k := FirstOfSize(v, 3, 0);
    if k == |v| then []
    else
      var p := FirstPairBesides(v, v[k][0].value, 0);
      if p == |v| then v[k]
      else v[k] + v[p] + Take(NextHighest(pool, v[k] + v[p]), CardsInHand - 5)
  }

  /** Flush: every card of the first suit holding at least sfQualify cards. */
  function FlushCards(pool: seq<Card>): seq<Card> {
    var suits := SuitOrder(pool);
    var k := FirstSuitWith(suits, SfQualify, 0);
    if k == |suits| then [] else CardsForFlush(suits, k)
  }

  /** Straight: the scan's run, cut to the hand size when it qualifies. */
  function StraightCards(pool: seq<Card>): seq<Card> {
    var g := GapCards(pool);
    if |g| >= SfQualify then Take(g, CardsInHand) else g
  }

  /** StraightFlush: the straight found among the cards of the first suit with at least sfQualify cards. */
  function StraightFlushCards(pool: seq<Card>): seq<Card>
    requires AllRanked(pool)
  {
    var suits := SuitOrder(pool);
    var k := FirstSuitWith(suits, SfQualify, 0);
    if k == |suits| then []
    else
      var straight := StraightCards(SortByRank(CardsForFlush(suits, k)));
      if |straight| >= SfQualify then straight else []
  }

  /** TwoPair: the two highest buckets of exactly two cards, then one kicker; a single pair is left alone. */
  function TwoPairCards(pool: seq<Card>): seq<Card>
    requires AllRanked(pool)
  {
    var v := RankIndex(pool);
    var k1 := FirstOfSize(v, 2, 0);
    if k1 == |v| then []
    else
      var k2 := FirstOfSize(v, 2, k1 + 1);
      if k2 == |v| then v[k1]
      else v[k1] + v[k2] + Take(NextHighest(pool, v[k1] + v[k2]), CardsInHand - 4)
  }

  /** HighCard: the first cardsInHand cards of the pool, sorted. */
  function HighCardCards(pool: seq<Card>): seq<Card> {
    SortByRank(Take(pool, CardsInHand))
  }

  /** The name "Royal Flush" is chosen exactly when the straight flush's first card is an ace. */
  predicate IsRoyal(cards: seq<Card>) {
    cards != [] && cards[0].rank == AceRank
  }

  /** `this.cards` after the evaluator of kind k has run on pool. */
  function Selected(k: Kind, pool: seq<Card>): seq<Card>
    requires AllRanked(pool)
  {
    match k
    case StraightFlush => StraightFlushCards(pool)
    case RoyalFlush => StraightFlushCards(pool)
    case FourOfAKind => OfAKind(pool, 4)
    case FullHouse => FullHouseCards(pool)
    case Flush => FlushCards(pool)
    case Straight => StraightCards(pool)
    case ThreeOfAKind => OfAKind(pool, 3)
    case TwoPair => TwoPairCards(pool)
    case OnePair => OfAKind(pool, 2)
    case HighCard => HighCardCards(pool)
  }

  /** What the evaluator's `solve()` returns. */
  predicate Possible(k: Kind, pool: seq<Card>)
    requires AllRanked(pool)
  {
    var c := Selected(k, pool);
    match k
    case StraightFlush => |c| >= SfQualify
    case RoyalFlush => |c| >= SfQualify && IsRoyal(c)
    case FourOfAKind => |c| >= 4
    case FullHouse => |c| >= 5
    case Flush => |c| >= SfQualify
    case Straight => |c| >= SfQualify
    case ThreeOfAKind => |c| >= 3
    case TwoPair => |c| >= 4
    case OnePair => |c| >= 2
    case HighCard => true
  }

  /** OfAKind's result once the scan over the buckets has stopped at k. */
  lemma OfAKindAt(pool: seq<Card>, size: nat, k: nat)
    requires AllRanked(pool) && size <= CardsInHand
    requires k <= |RankIndex(pool)|
    requires k < |RankIndex(pool)| ==> |RankIndex(pool)[k]| == size
    requires forall j :: 0 <= j < k ==> |RankIndex(pool)[j]| != size
    ensures OfAKind(pool, size) == if k == |RankIndex(pool)| then [] else
      RankIndex(pool)[k] + Take(NextHighest(pool, RankIndex(pool)[k]), CardsInHand - size)
  {
    FirstOfSizeIs(RankIndex(pool), size, 0, k);
  }

  /** FullHouse's result once the scans have stopped at triple bucket k and pair bucket p. */
  lemma FullHouseCardsAt(pool: seq<Card>, k: nat, p: nat)
    requires AllRanked(pool)
    requires k <= |RankIndex(pool)|
    requires k < |RankIndex(pool)| ==> |RankIndex(pool)[k]| == 3
    requires forall j :: 0 <= j < k ==> |RankIndex(pool)[j]| != 3
    requires k < |RankIndex(pool)| ==>
      var v := RankIndex(pool);
      && p <= |v|
      && (p < |v| ==> v[p] != [] && v[p][0].value != v[k][0].value && |v[p]| >= 2)
      && (forall j :: 0 <= j < p ==> !(v[j] != [] && v[j][0].value != v[k][0].value && |v[j]| >= 2))
    ensures var v := RankIndex(pool);
      FullHouseCards(pool) ==
        if k == |v| then []
        else if p == |v| then v[k]
        else v[k] + v[p] + Take(NextHighest(pool, v[k] + v[p]), CardsInHand - 5)
  {
    var v := RankIndex(pool);
    FirstOfSizeIs(v, 3, 0, k);
    if k < |v| {
      FirstPairBesidesIs(v, v[k][0].value, 0, p);
    }
  }

  /** TwoPair's result once the scan has found its first pair at k1 and its second at k2. */
  lemma TwoPairCardsAt(pool: seq<Card>, k1: nat, k2: nat)
    requires AllRanked(pool)
    requires k1 <= |RankIndex(pool)|
    requires k1 < |RankIndex(pool)| ==> |RankIndex(pool)[k1]| == 2
    requires forall j :: 0 <= j < k1 ==> |RankIndex(pool)[j]| != 2
    requires k1 < |RankIndex(pool)| ==>
      && k1 < k2 <= |RankIndex(pool)|
      && (k2 < |RankIndex(pool)| ==> |RankIndex(pool)[k2]| == 2)
      && (forall j :: k1 < j < k2 ==> |RankIndex(pool)[j]| != 2)
    ensures var v := RankIndex(pool);
      TwoPairCards(pool) ==
        if k1 == |v| then []
        else if k2 == |v| then v[k1]
        else v[k1] + v[k2] + Take(NextHighest(pool, v[k1] + v[k2]), CardsInHand - 4)
  {
    var v := RankIndex(pool);
    FirstOfSizeIs(v, 2, 0, k1);
    if k1 < |v| {
      FirstOfSizeIs(v, 2, k1 + 1, k2);
      assert FirstOfSize(v, 2, FirstOfSize(v, 2, 0) + 1) == k2;
    }
  }

  /** StraightFlush's result once the scan over the suits has stopped at entry j. */
  lemma StraightFlushCardsAt(pool: seq<Card>, j: nat)
    requires AllRanked(pool)
    requires j <= |SuitOrder(pool)|
    requires j < |SuitOrder(pool)| ==> |CardsForFlush(SuitOrder(pool), j)| >= SfQualify
    requires forall m :: 0 <= m < j ==> |CardsForFlush(SuitOrder(pool), m)| < SfQualify
    ensures j == |SuitOrder(pool)| ==> StraightFlushCards(pool) == []
    ensures j < |SuitOrder(pool)| ==>
      var straight := StraightCards(SortByRank(CardsForFlush(SuitOrder(pool), j)));
      StraightFlushCards(pool) == if |straight| >= SfQualify then straight else []
  {
    FirstSuitWithIs(SuitOrder(pool), SfQualify, 0, j);
  }

  // ----------------------------------------------------- buckets and ranks

  /** Bucket Span - 1 - r holds the cards of rank r; ranks outside the span have no cards. */
  lemma BucketOfRank(pool: seq<Card>, r: int)
    requires AllRanked(pool)
    ensures 0 <= r < Span(pool) ==> RankIndex(pool)[Span(pool) - 1 - r] == OfRank(pool, r)
    ensures !(0 <= r < Span(pool)) ==> OfRank(pool, r) == []
  {
    if !(0 <= r < Span(pool)) {
      FilterNone(pool, (c: Card) => c.rank == r);
    }
  }

  // ------------------------------------------------------- group evaluators

  /** The facts about one bucket of the rank index: its rank, its cards, its size. */
  lemma BucketFacts(pool: seq<Card>, k: nat)
    requires AllRanked(pool) && k < Span(pool)
    ensures RankIndex(pool)[k] == OfRank(pool, BucketRank(pool, k))
    ensures |RankIndex(pool)[k]| == Count(pool, BucketRank(pool, k))
    ensures RankIndex(pool)[k] != [] ==> RankIndex(pool)[k][0].rank == BucketRank(pool, k)
  {
    var v := RankIndex(pool);
    if v[k] != [] {
      assert v[k][0] in v[k];
    }
  }

  /**
   * FourOfAKind, ThreeOfAKind, OnePair: when they succeed, the hand leads with
   * all cards of one rank, which has exactly `size` cards in the pool, followed
   * by the highest remaining pool cards up to the hand size.
   */
  lemma OfAKindLead(pool: seq<Card>, size: nat)
    requires AllRanked(pool) && 2 <= size <= 4 && OfAKind(pool, size) != []
    ensures var c := OfAKind(pool, size);
      && |c| >= size
      && c[..size] == OfRank(pool, c[0].rank)
      && Count(pool, c[0].rank) == size
      && c[size..] == Take(NextHighest(pool, c[..size]), CardsInHand - size)
  {
    var v := RankIndex(pool);
    var k := FirstOfSize(v, size, 0);
    BucketFacts(pool, k);
    var c := OfAKind(pool, size);
    assert c == v[k] + Take(NextHighest(pool, v[k]), CardsInHand - size);
    assert c[..size] == v[k];
  }

  /**
   * The kickers of FourOfAKind, ThreeOfAKind and OnePair on a sorted pool:
   * rank-descending pool cards of other ranks, each at least as high as every
   * pool card the hand leaves out; the hand is short of five cards only when
   * it leaves nothing out.
   */
  lemma OfAKindKickers(pool: seq<Card>, size: nat)
    requires PoolOk(pool) && 2 <= size <= 4 && OfAKind(pool, size) != []
    ensures var c := OfAKind(pool, size);
      && SortedDesc(c[size..])
      && (forall x :: x in c[size..] ==> x in pool && x.rank != c[0].rank)
      && (forall y :: y in pool && y !in c ==> |c| == CardsInHand && forall x :: x in c[size..] ==> y.rank <= x.rank)
  {
    var c := OfAKind(pool, size);
    OfAKindLead(pool, size);
    NextHighestKickers(pool, c[..size], CardsInHand - size);
    assert c == c[..size] + c[size..];
  }

  /** ... and no higher rank has exactly `size` cards; they fail exactly when no rank has. */
  lemma OfAKindHighest(pool: seq<Card>, size: nat)
    requires AllRanked(pool) && 2 <= size <= 4
    ensures OfAKind(pool, size) != [] <==> exists r :: Count(pool, r) == size
    ensures OfAKind(pool, size) != [] ==> forall r :: r > OfAKind(pool, size)[0].rank ==> Count(pool, r) != size
  {
    var v := RankIndex(pool);
    var k := FirstOfSize(v, size, 0);
    if k < |v| {
      BucketFacts(pool, k);
      var R := BucketRank(pool, k);
      assert OfAKind(pool, size)[0] == v[k][0];
      forall r | r > R ensures Count(pool, r) != size {
        BucketOfRank(pool, r);
      }
    } else {
      forall r ensures Count(pool, r) != size {
        BucketOfRank(pool, r);
      }
    }
  }

  /** FullHouse's triple is the bucket OfAKind(pool, 3) leads with. */
  lemma FullHouseTripleIsThreeOfAKindLead(pool: seq<Card>)
    requires AllRanked(pool) && |FullHouseCards(pool)| >= 5
    ensures OfAKind(pool, 3) != [] && FullHouseCards(pool)[..3] == OfAKind(pool, 3)[..3]
  {
    var v := RankIndex(pool);
    var k := FirstOfSize(v, 3, 0);
    BucketFacts(pool, k);
    assert FullHouseCards(pool)[..3] == v[k] == OfAKind(pool, 3)[..3];
  }

  /** The pair bucket FullHouse picks differs in rank from the triple, and no other rank above it has two or more cards. */
  lemma FullHousePairBucket(pool: seq<Card>)
    requires AllRanked(pool) && |FullHouseCards(pool)| >= 5
    ensures var v := RankIndex(pool);
      var k := FirstOfSize(v, 3, 0);
      var p := FirstPairBesides(v, v[k][0].value, 0);
      && k < |v| && p < |v|
      && BucketRank(pool, p) != BucketRank(pool, k)
      && (forall r :: r > BucketRank(pool, p) && r != BucketRank(pool, k) ==> Count(pool, r) < 2)
  {
    var v := RankIndex(pool);
    var k := FirstOfSize(v, 3, 0);
    var p := FirstPairBesides(v, v[k][0].value, 0);
    BucketFacts(pool, k);
    BucketFacts(pool, p);
    assert v[k][0] in pool && v[p][0] in pool;
    SameFaceSameRank(v[k][0], v[p][0]);
    forall r | r > BucketRank(pool, p) && r != BucketRank(pool, k) ensures Count(pool, r) < 2 {
      PairScanPassed(pool, k, p, r);
    }
  }

  /**
   * A rank above the bucket FullHouse's pair scan stopped at, other than the
   * triple's, has fewer than two cards: the scan passed its bucket.
   */
  lemma PairScanPassed(pool: seq<Card>, k: nat, p: nat, r: int)
    requires AllRanked(pool) && k < |RankIndex(pool)| && RankIndex(pool)[k] != []
    requires p == FirstPairBesides(RankIndex(pool), RankIndex(pool)[k][0].value, 0)
    requires r > BucketRank(pool, p) && r != BucketRank(pool, k)
    ensures Count(pool, r) < 2
  {
    var v := RankIndex(pool);
    BucketOfRank(pool, r);
    if r < Span(pool) {
      var j := Span(pool) - 1 - r;
      BucketFacts(pool, j);
      BucketFacts(pool, k);
      if v[j] != [] {
        assert v[j][0] in pool && v[k][0] in pool;
        SameFaceSameRank(v[j][0], v[k][0]);
      }
    }
  }

  /**
   * FullHouse, when it succeeds: the triple is all three cards of the highest
   * rank having exactly three, and the rest are all cards of the highest OTHER
   * rank having two or more (three Kings and three Queens give Kings over Queens).
   */
  lemma FullHouseSpec(pool: seq<Card>)
    requires AllRanked(pool) && |FullHouseCards(pool)| >= 5
    ensures var c := FullHouseCards(pool);
      && c[..3] == OfRank(pool, c[0].rank)
      && Count(pool, c[0].rank) == 3
      && (forall r :: r > c[0].rank ==> Count(pool, r) != 3)
      && c[3].rank != c[0].rank
      && c[3..] == OfRank(pool, c[3].rank)
      && Count(pool, c[3].rank) >= 2
      && (forall r :: r > c[3].rank && r != c[0].rank ==> Count(pool, r) < 2)
  {
    FullHouseTripleIsThreeOfAKindLead(pool);
    OfAKindLead(pool, 3);
    OfAKindHighest(pool, 3);
    FullHousePairBucket(pool);
    var v := RankIndex(pool);
    var k := FirstOfSize(v, 3, 0);
    var p := FirstPairBesides(v, v[k][0].value, 0);
    BucketFacts(pool, p);
    BucketFacts(pool, k);
    var c := FullHouseCards(pool);
    assert c == v[k] + v[p];
    assert c[3..] == v[p];
    assert c[3] == v[p][0];
    assert c[0] == OfAKind(pool, 3)[0];
  }

  /** FullHouse succeeds exactly when some rank has exactly three cards and another rank has two or more. */
  lemma FullHouseSucceedsIff(pool: seq<Card>)
    requires AllRanked(pool)
    ensures |FullHouseCards(pool)| >= 5 <==>
      exists r, r' :: r != r' && Count(pool, r) == 3 && Count(pool, r') >= 2
        && (forall q :: q > r ==> Count(pool, q) != 3)
  {
    var v := RankIndex(pool);
    var k := FirstOfSize(v, 3, 0);
    OfAKindHighest(pool, 3);
    if |FullHouseCards(pool)| >= 5 {
      FullHouseSpec(pool);
    } else if k < |v| {
      BucketFacts(pool, k);
      var R := BucketRank(pool, k);
      assert OfAKind(pool, 3)[0] == v[k][0];
      forall r, r' | r != r' && Count(pool, r) == 3 && (forall q :: q > r ==> Count(pool, q) != 3)
        ensures Count(pool, r') < 2
      {
        assert r == R;
        BucketOfRank(pool, r');
        if r' >= 0 {
          PairScanPassed(pool, k, |v|, r');
        }
      }
    }
  }

  /**
   * TwoPair, when it succeeds: the two highest ranks having exactly two cards
   * each, higher pair first, then the highest remaining pool card.
   */
  lemma TwoPairSpec(pool: seq<Card>)
    requires AllRanked(pool) && |TwoPairCards(pool)| >= 4
    ensures var c := TwoPairCards(pool);
      && c[..2] == OfRank(pool, c[0].rank) && Count(pool, c[0].rank) == 2
      && c[2..4] == OfRank(pool, c[2].rank) && Count(pool, c[2].rank) == 2
      && c[0].rank > c[2].rank
      && (forall r :: r > c[2].rank && r != c[0].rank ==> Count(pool, r) != 2)
      && c[4..] == Take(NextHighest(pool, c[..4]), CardsInHand - 4)
  {
    var v := RankIndex(pool);
    var k1 := FirstOfSize(v, 2, 0);
    var k2 := FirstOfSize(v, 2, k1 + 1);
    BucketFacts(pool, k1);
    BucketFacts(pool, k2);
    var c := TwoPairCards(pool);
    assert c == v[k1] + v[k2] + Take(NextHighest(pool, v[k1] + v[k2]), CardsInHand - 4);
    assert c[..2] == v[k1] && c[2..4] == v[k2] && c[..4] == v[k1] + v[k2];
    assert c[0] == v[k1][0] && c[2] == v[k2][0];
    forall r | r > BucketRank(pool, k2) && r != BucketRank(pool, k1) ensures Count(pool, r) != 2 {
      BucketOfRank(pool, r);
    }
  }

  /**
   * TwoPair's kicker on a sorted pool: a pool card of neither pair's rank, at
   * least as high as every pool card the hand leaves out; the hand is short of
   * five cards only when it leaves nothing out.
   */
  lemma TwoPairKickers(pool: seq<Card>)
    requires PoolOk(pool) && |TwoPairCards(pool)| >= 4
    ensures var c := TwoPairCards(pool);
      && (forall x :: x in c[4..] ==> x in pool && x.rank != c[0].rank && x.rank != c[2].rank)
      && (forall y :: y in pool && y !in c ==> |c| == CardsInHand && forall x :: x in c[4..] ==> y.rank <= x.rank)
  {
    var c := TwoPairCards(pool);
    TwoPairSpec(pool);
    NextHighestKickers(pool, c[..4], CardsInHand - 4);
    assert c == c[..4] + c[4..];
    assert c[..4] == c[..2] + c[2..4];
  }

  /** TwoPair succeeds exactly when two different ranks have exactly two cards each. */
  lemma TwoPairSucceedsIff(pool: seq<Card>)
    requires AllRanked(pool)
    ensures |TwoPairCards(pool)| >= 4 <==> exists r, r' :: r > r' && Count(pool, r) == 2 && Count(pool, r') == 2
  {
    var v := RankIndex(pool);
    var k1 := FirstOfSize(v, 2, 0);
    if |TwoPairCards(pool)| >= 4 {
      TwoPairSpec(pool);
    } else if k1 < |v| {
      BucketFacts(pool, k1);
      var k2 := FirstOfSize(v, 2, k1 + 1);
      assert k2 == |v|;
      forall r, r' | r > r' && Count(pool, r) == 2 ensures Count(pool, r') != 2 {
        BucketOfRank(pool, r);
        BucketOfRank(pool, r');
      }
    } else {
      forall r ensures Count(pool, r) != 2 {
        BucketOfRank(pool, r);
      }
    }
  }

  /**
   * Flush returns every card of the first suit, in the order `for..in`
   * visits the suits (see SuitOrderSpec), holding at least sfQualify cards, rank-descending;
   * every earlier suit has fewer. It returns nothing when no suit has enough.
   */
  lemma FlushSpec(pool: seq<Card>)
    requires PoolOk(pool)
    ensures var suits := SuitOrder(pool);
      var k := FirstSuitWith(suits, SfQualify, 0);
      && (k < |suits| ==>
            && FlushCards(pool) == OfSuit(pool, suits[k].suit)
            && |FlushCards(pool)| >= SfQualify
            && SortedDesc(FlushCards(pool))
            && forall j :: 0 <= j < k ==> |OfSuit(pool, suits[j].suit)| < SfQualify)
      && (k == |suits| ==> FlushCards(pool) == [] && forall c :: c in pool ==> |OfSuit(pool, c.suit)| < SfQualify)
  {
    var suits := SuitOrder(pool);
    var k := FirstSuitWith(suits, SfQualify, 0);
    SuitOrderSpec(pool);
    forall j | 0 <= j < |suits| ensures CardsForFlush(suits, j) == OfSuit(pool, suits[j].suit) {
      CardsForFlushOfSortedPool(pool, j);
    }
    if k < |suits| {
      CardsForFlushOfSortedPool(pool, k);
    } else {
      forall c | c in pool ensures |OfSuit(pool, c.suit)| < SfQualify {
        var j :| 0 <= j < |suits| && suits[j].suit == c.suit;
      }
    }
  }

  /**
   * Straight succeeds exactly when the pool, with its low-ace copies, holds
   * five consecutive ranks; the hand is then those five cards, from the highest
   * such run, ranks t, t - 1, ..., t - 4.
   */
  lemma StraightSpec(pool: seq<Card>)
    ensures |StraightCards(pool)| >= SfQualify <==> exists t :: 1 <= t <= |Faces| && HasRun(CheckSet(pool), t)
    ensures |StraightCards(pool)| >= SfQualify ==>
      && StraightCards(pool) == GapCards(pool)
      && |StraightCards(pool)| == SfQualify
      && (forall k :: 0 <= k < SfQualify ==> StraightCards(pool)[k].rank == StraightCards(pool)[0].rank - k)
      && (forall t :: StraightCards(pool)[0].rank + 1 < t <= |Faces| ==> !HasRun(CheckSet(pool), t))
  {
    GapCardsShape(pool);
    if |GapCards(pool)| >= SfQualify {
      GapCardsIsHighestStraight(pool);
    }
  }

  /** A straight found among cards of one suit: five consecutive ranks, all of that suit. */
  lemma StraightOfOneSuit(sub: seq<Card>, suit: string)
    requires forall x :: x in sub ==> x.suit == suit
    ensures var c := StraightCards(sub);
      |c| >= SfQualify ==>
        && |c| == SfQualify
        && (forall k :: 0 <= k < SfQualify ==> c[k].rank == c[0].rank - k)
        && (forall x :: x in c ==> x.suit == suit)
  {
    StraightSpec(sub);
    GapCardsKeepSuit(sub, suit);
  }

  /**
   * StraightFlush, when it succeeds: five cards of one suit with consecutive
   * descending ranks, taken from the first suit holding at least sfQualify cards.
   */
  lemma StraightFlushSpec(pool: seq<Card>)
    requires AllRanked(pool)
    ensures var c := StraightFlushCards(pool);
      |c| >= SfQualify ==>
        && |c| == SfQualify
        && (forall k :: 0 <= k < SfQualify ==> c[k].rank == c[0].rank - k)
        && (forall x :: x in c ==> x.suit == SuitOrder(pool)[FirstSuitWith(SuitOrder(pool), SfQualify, 0)].suit)
  {
    var suits := SuitOrder(pool);
    var k := FirstSuitWith(suits, SfQualify, 0);
    if k < |suits| {
      var sub := SortByRank(CardsForFlush(suits, k));
      FlushCandidatesShareSuit(pool, k);
      StraightOfOneSuit(sub, suits[k].suit);
    }
  }

  /**
   * StraightFlush succeeds exactly when the first suit holding at least
   * sfQualify cards has five consecutive ranks among its cards (with their
   * low-ace copies); the hand is then that suit's highest such run.
   */
  lemma StraightFlushSucceedsIff(pool: seq<Card>)
    requires PoolOk(pool)
    ensures var order := SuitOrder(pool);
      var k := FirstSuitWith(order, SfQualify, 0);
      var c := StraightFlushCards(pool);
      && (|c| >= SfQualify <==>
            k < |order| && exists t :: 1 <= t <= |Faces| && HasRun(CheckSet(OfSuit(pool, order[k].suit)), t))
      && (|c| >= SfQualify ==>
            && c == StraightCards(OfSuit(pool, order[k].suit))
            && forall t :: c[0].rank + 1 < t <= |Faces| ==> !HasRun(CheckSet(OfSuit(pool, order[k].suit)), t))
  {
    var order := SuitOrder(pool);
    var k := FirstSuitWith(order, SfQualify, 0);
    if k < |order| {
      var cf := CardsForFlush(order, k);
      CardsForFlushOfSortedPool(pool, k);
      SortSortedIsIdentity(cf);
      StraightSpec(cf);
    }
  }

  /** The cards StraightFlush searches for a run all carry the suit of their entry. */
  lemma FlushCandidatesShareSuit(pool: seq<Card>, k: nat)
    requires k < |SuitOrder(pool)|
    ensures forall x :: x in SortByRank(CardsForFlush(SuitOrder(pool), k)) ==> x.suit == SuitOrder(pool)[k].suit
  {
    var suits := SuitOrder(pool);
    SuitOrderSpec(pool);
    var e := suits[k].cards;
    assert e == OfSuit(pool, suits[k].suit);
    forall x | x in SortByRank(SortByRank(e)) ensures x.suit == suits[k].suit {
      assert x in multiset(SortByRank(e));
      assert x in multiset(e);
    }
  }

  /** HighCard on a non-empty sorted pool: the pool's first cardsInHand cards, as they are. */
  lemma HighCardSpec(pool: seq<Card>)
    requires PoolOk(pool) && pool != []
    ensures HighCardCards(pool) == Take(pool, CardsInHand) && HighCardCards(pool) != []
    ensures HighCardCards(pool)[0] == pool[0]
  {
    SortSortedIsIdentity(Take(pool, CardsInHand));
  }
}
