/**
 * Straight detection: `Straight.getGaps` with no wild cards. Every ace gets
 * a rank-0 "low ace" copy, and for each candidate top rank i, from 14 down
 * to 1, the scan keeps the first card of each rank in [i - 5, i - 1]; the
 * first strictly longest such run wins, and the scan stops once a run of
 * five (the standard sfQualify) is found.
 */
module Straights {
  import opened Seqs
  import opened Cards
  import opened Indices
  import Rules

  /** The run length a straight needs, `sfQualify` of the standard game. */
  const RunLength: int := Rules.Standard.sfQualify

  /** `new Card("1" + card.suit)`: the rank-0 copy of an ace (its suit is already lower case). */
  function LowAce(c: Card): Card {
    Card("1", c.suit, 0)
  }

  /** The low-ace copies appended for the aces of s, in the order of s. */
  function LowAces(s: seq<Card>): (r: seq<Card>)
    ensures |r| <= |s|
  {
    if s == [] then []
    else
      var n := |s| - 1;
      assert s == s[..n] + [s[n]];
      LowAces(s[..n]) + (if s[n].value == "A" then [LowAce(s[n])] else [])
  }

  predicate IsAce(c: Card) {
    c.value == "A"
  }

  /** The low aces are exactly one copy of each ace of s, in the order of s. */
  lemma {:induction false} LowAcesSpec(s: seq<Card>)
    ensures |LowAces(s)| == |Filter(s, IsAce)|
    ensures forall i :: 0 <= i < |LowAces(s)| ==> LowAces(s)[i] == LowAce(Filter(s, IsAce)[i])
  {
    if s != [] {
      var n := |s| - 1;
      assert s == s[..n] + [s[n]];
      LowAcesSpec(s[..n]);
      FilterSnoc(s[..n], s[n], IsAce);
    }
  }

  /** The copies are rank-0 cards showing "1": none of them is an ace. */
  lemma {:induction false} LowAcesAreLow(s: seq<Card>)
    ensures forall c :: c in LowAces(s) ==> c.value == "1" && c.rank == 0
  {
    if s != [] {
      var n := |s| - 1;
      assert s == s[..n] + [s[n]];
      LowAcesAreLow(s[..n]);
    }
  }

  /** Every ace of s has its copy among the low aces. */
  lemma {:induction false} AceHasLowCopy(s: seq<Card>, i: nat)
    requires i < |s| && s[i].value == "A"
    ensures LowAce(s[i]) in LowAces(s)
  {
    var n := |s| - 1;
    assert s == s[..n] + [s[n]];
    if i < n {
      assert s[..n][i] == s[i];
      AceHasLowCopy(s[..n], i);
    }
  }

  /** Each low-ace copy keeps the suit of a card of s. */
  lemma {:induction false} LowAcesKeepSuit(s: seq<Card>, suit: string)
    requires forall c :: c in s ==> c.suit == suit
    ensures forall c :: c in LowAces(s) ==> c.suit == suit
  {
    if s != [] {
      var n := |s| - 1;
      assert s == s[..n] + [s[n]];
      assert forall c :: c in s[..n] ==> c in s;
      LowAcesKeepSuit(s[..n], suit);
    }
  }

  /** The cards a scan runs over: the non-wild pool cards and their low-ace copies, sorted. */
  function CheckSet(pool: seq<Card>): seq<Card> {
    var plain := StripWilds(pool).1;
    SortByRank(plain + LowAces(plain))
  }

  /** Card j is the first of its rank in s and lies in the window [top - 5, top - 1]. */
  predicate Keep(s: seq<Card>, j: nat, top: int)
    requires j < |s|
  {
    top - RunLength <= s[j].rank < top && (j == 0 || s[j - 1].rank != s[j].rank)
  }

  /** The run the scan for top rank `top` collects over s: the kept cards, in order. */
  function Window(s: seq<Card>, top: int): (w: seq<Card>)
    ensures forall c :: c in w ==> c in s
  {
    if s == [] then []
    else
      var n := |s| - 1;
      assert s == s[..n] + [s[n]];
      Window(s[..n], top) + (if Keep(s, n, top) then [s[n]] else [])
  }

  predicate StrictlyDesc(w: seq<Card>) {
    forall a, b :: 0 <= a < b < |w| ==> w[a].rank > w[b].rank
  }

  /** The scan's result from top rank `top` down, given the best run found above it. */
  function BestRun(s: seq<Card>, top: int, best: seq<Card>): seq<Card>
    decreases top
  {
    if top <= 0 then best
    else
      var run := Window(s, top);
      var b := if |run| > |best| then run else best;
      if RunLength - |b| <= 0 then b else BestRun(s, top - 1, b)
  }

  /** `getGaps()` on a pool: the scan from top rank 14 (the length of the face table). */
  function GapCards(pool: seq<Card>): seq<Card> {
    BestRun(CheckSet(pool), |Faces|, [])
  }

  /** Some card of s has rank r. */
  ghost predicate HasRank(s: seq<Card>, r: int) {
    exists c :: c in s && c.rank == r
  }

  /** s holds every rank top - 5 .. top - 1 (a run whose highest rank is top - 1). */
  ghost predicate HasRun(s: seq<Card>, top: int) {
    forall r :: top - RunLength <= r < top ==> HasRank(s, r)
  }

  // ---------------------------------------------------------------- the scan

  /**
   * `getGaps()`: the loop over `cardsToCheck` that appends a low ace while
   * iterating, the sort, and the nested scan with its `gapCount` accumulator.
   */
  method GetGaps(cardPool: seq<Card>) returns (gapCards: seq<Card>)
    requires AllRanked(cardPool)
    ensures gapCards == GapCards(cardPool)
  {
    var stripped := StripWilds(cardPool);
    var wildCards, cardsToCheck := stripped.0, stripped.1;
    StripWildsOfRankedPool(cardPool);
    cardsToCheck := AppendLowAces(cardsToCheck);
    cardsToCheck := SortByRank(cardsToCheck);
    assert cardsToCheck == CheckSet(cardPool);

    gapCards := LongestRun(cardsToCheck, |wildCards|);
  }

  /** The outer loop of `getGaps`: one scan per top rank, keeping the first strictly longest run. */
  method LongestRun(cardsToCheck: seq<Card>, wildCount: nat) returns (gapCards: seq<Card>)
    requires SortedDesc(cardsToCheck) && wildCount == 0
    ensures gapCards == BestRun(cardsToCheck, |Faces|, [])
  {
    gapCards := [];
    var top := |Faces|;
    while top > 0
      invariant 0 <= top <= |Faces|
      invariant BestRun(cardsToCheck, top, gapCards) == BestRun(cardsToCheck, |Faces|, [])
      decreases top
    {
      var cardsList := Scan(cardsToCheck, top);
      if |cardsList| > |gapCards| {
        gapCards := cardsList;
      }
      if RunLength - |gapCards| <= wildCount {
        break;
      }
      top := top - 1;
    }
  }

  /**
   * The loop of `getGaps` that walks `cardsToCheck` while appending to it: each
   * ace gets a low-ace copy at the end; the copies are visited too but are not aces.
   */
  method AppendLowAces(plain: seq<Card>) returns (cardsToCheck: seq<Card>)
    ensures cardsToCheck == plain + LowAces(plain)
  {
    cardsToCheck := plain;
    var i := 0;
    while i < |cardsToCheck|
      invariant i <= |cardsToCheck| <= 2 * |plain|
      invariant cardsToCheck == plain + LowAces(plain[..Min(i, |plain|)])
      decreases 2 * |plain| - i
    {
      var card := cardsToCheck[i];
      if card.value == "A" {
        cardsToCheck := cardsToCheck + [LowAce(card)];
      }
      if i < |plain| {
        assert plain[..i + 1] == plain[..i] + [plain[i]];
      } else {
        assert plain[..|plain|] == plain;
        LowAcesAreLow(plain);
        assert card in LowAces(plain);
      }
      i := i + 1;
    }
    assert plain[..|plain|] == plain;
  }

  /** One pass of the inner loop of `getGaps` for top rank `top`. */
  method Scan(cardsToCheck: seq<Card>, top: int) returns (cardsList: seq<Card>)
    requires SortedDesc(cardsToCheck)
    ensures cardsList == Window(cardsToCheck, top)
  {
    var cs := cardsToCheck;
    cardsList := [];
    var gapCount := 0;
    var j := 0;
    while j < |cs|
      invariant 0 <= j <= |cs|
      invariant cardsList == Window(cs[..j], top)
      invariant cardsList != [] ==> j > 0 && cardsList[|cardsList| - 1].rank == cs[j - 1].rank
      invariant cardsList != [] ==> gapCount + |cardsList| == top - cs[j - 1].rank
      invariant cardsList == [] ==> gapCount == 0 && forall k :: 0 <= k < j ==> cs[k].rank >= top
    {
      var card := cs[j];
      WindowSnoc(cs, j, top);
      if card.rank > top {
        j := j + 1;
        continue;
      }
      var diff := if cardsList != [] then cardsList[|cardsList| - 1].rank - card.rank else top - card.rank;
      if RunLength < gapCount + diff + |cardsList| {
        WindowStops(cs, j, top);
        break;
      } else if diff > 0 {
        cardsList := cardsList + [card];
        gapCount := gapCount + diff - 1;
      }
      j := j + 1;
    }
    assert cs[..|cs|] == cs;
  }

  /** The window over one more card: the card joins it when it is kept. */
  lemma WindowSnoc(s: seq<Card>, j: nat, top: int)
    requires j < |s|
    ensures Window(s[..j + 1], top) == Window(s[..j], top) + (if Keep(s, j, top) then [s[j]] else [])
  {
    assert s[..j + 1][..j] == s[..j];
  }

  /** Once a card ranks below the window, no later card of a sorted list is kept. */
  lemma WindowStops(s: seq<Card>, j: nat, top: int)
    requires SortedDesc(s) && j < |s| && s[j].rank < top - RunLength
    ensures Window(s, top) == Window(s[..j], top)
  {
    var m := |s|;
    assert s[..m] == s;
    while m > j
      invariant j <= m <= |s|
      invariant Window(s, top) == Window(s[..m], top)
    {
      assert s[..m][..m - 1] == s[..m - 1];
      m := m - 1;
    }
  }

  // ------------------------------------------------------- shape of a window

  /** A window of a sorted list has strictly descending ranks, all in [top - 5, top - 1]. */
  lemma {:induction false} WindowShape(s: seq<Card>, top: int)
    requires SortedDesc(s)
    ensures StrictlyDesc(Window(s, top))
    ensures forall c :: c in Window(s, top) ==> top - RunLength <= c.rank < top
  {
    if s != [] {
      var n := |s| - 1;
      var front := s[..n];
      assert SortedDesc(front);
      WindowShape(front, top);
      var w := Window(front, top);
      if Keep(s, n, top) && n > 0 {
        forall k | 0 <= k < |w| ensures w[k].rank > s[n].rank {
          assert w[k] in front;
        }
      }
    }
  }

  /** In a strictly descending list, ranks fall by at least one per position. */
  lemma {:induction false} DescentBound(w: seq<Card>, a: nat, b: nat)
    requires StrictlyDesc(w) && a <= b < |w|
    ensures w[a].rank - w[b].rank >= b - a
    decreases b - a
  {
    if a < b {
      DescentBound(w, a + 1, b);
    }
  }

  /** Each rank of the window present in a sorted list shows up in its window. */
  lemma {:induction false} WindowHasEveryRank(s: seq<Card>, top: int, r: int)
    requires SortedDesc(s) && top - RunLength <= r < top
    requires HasRank(s, r)
    ensures HasRank(Window(s, top), r)
  {
    var n := |s| - 1;
    var front := s[..n];
    assert s == front + [s[n]];
    if HasRank(front, r) {
      WindowHasEveryRank(front, top, r);
    } else {
      assert s[n].rank == r;
      if n > 0 {
        assert s[n - 1] in front;
      }
      assert Keep(s, n, top);
      assert s[n] in Window(s, top);
    }
  }

  /**
   * A window holds at most five cards, and it holds five exactly when every
   * rank top - 5 .. top - 1 is present; then its ranks are top - 1, ..., top - 5.
   */
  lemma WindowFull(s: seq<Card>, top: int)
    requires SortedDesc(s)
    ensures |Window(s, top)| <= RunLength
    ensures |Window(s, top)| == RunLength <==> HasRun(s, top)
    ensures |Window(s, top)| == RunLength ==> forall k :: 0 <= k < RunLength ==> Window(s, top)[k].rank == top - 1 - k
  {
    var w := Window(s, top);
    WindowShape(s, top);
    if |w| > 0 {
      assert w[0] in w && w[|w| - 1] in w;
      DescentBound(w, 0, |w| - 1);
    }
    if |w| == RunLength {
      forall k | 0 <= k < RunLength ensures w[k].rank == top - 1 - k {
        assert w[k] in w;
        DescentBound(w, 0, k);
        DescentBound(w, k, RunLength - 1);
      }
      forall r | top - RunLength <= r < top ensures HasRank(s, r) {
        assert w[top - 1 - r] in w;
      }
    }
    if HasRun(s, top) {
      forall r | top - RunLength <= r < top ensures HasRank(w, r) {
        WindowHasEveryRank(s, top, r);
      }
      FullWindowExact(w, top, 4);
    }
  }

  /** If a strictly descending window contains every rank top - 5 .. top - 1, its first k + 1 cards are top - 1 ... top - 1 - k. */
  lemma {:induction false} FullWindowExact(w: seq<Card>, top: int, k: nat)
    requires StrictlyDesc(w) && k < RunLength
    requires forall c :: c in w ==> c.rank < top
    requires forall r :: top - RunLength <= r < top ==> HasRank(w, r)
    ensures k < |w| && w[k].rank == top - 1 - k
  {
    assert HasRank(w, top - 1 - k);
    var c :| c in w && c.rank == top - 1 - k;
    var p :| 0 <= p < |w| && w[p] == c;
    if k == 0 {
      assert w[0] in w;
    } else {
      FullWindowExact(w, top, k - 1);
      assert p > k - 1;
      assert w[k] in w;
    }
  }

  // ------------------------------------------------------ the best run found

  /** r is the window of some top t <= top, longer than best, and every higher top's window is strictly shorter. */
  ghost predicate FirstLongest(s: seq<Card>, top: int, best: seq<Card>, r: seq<Card>) {
    exists t :: 1 <= t <= top && r == Window(s, t) && |r| > |best| && ShorterAbove(s, t, top, |r|)
  }

  /** Every window for a top in (t, top] is shorter than n. */
  ghost predicate ShorterAbove(s: seq<Card>, t: int, top: int, n: int) {
    forall t' :: t < t' <= top ==> |Window(s, t')| < n
  }

  /**
   * From top rank `top` down with a shorter-than-five best so far: the result
   * is never shorter than any window scanned, it has five cards exactly when
   * some scanned top has a full run, and it is the FIRST strictly longest
   * window (higher tops win ties) or the best it was given.
   */
  lemma {:induction false} BestRunSpec(s: seq<Card>, top: int, best: seq<Card>)
    requires SortedDesc(s) && |best| < RunLength
    ensures var r := BestRun(s, top, best);
      && |best| <= |r| <= RunLength
      && (|r| == RunLength <==> exists t :: 1 <= t <= top && HasRun(s, t))
      && (forall t :: 1 <= t <= top ==> |Window(s, t)| <= |r| || |r| == RunLength)
      && (r == best || FirstLongest(s, top, best, r))
    decreases top
  {
    if top > 0 {
      var run := Window(s, top);
      WindowFull(s, top);
      var b := if |run| > |best| then run else best;
      if RunLength - |b| > 0 {
        BestRunSpec(s, top - 1, b);
        FirstLongestStep(s, top, best, BestRun(s, top - 1, b));
      } else {
        assert ShorterAbove(s, top, top, |run|);
      }
    }
  }

  /** A run that was the first longest below top, or the best so far, stays so once top's window is scanned. */
  lemma FirstLongestStep(s: seq<Card>, top: int, best: seq<Card>, r: seq<Card>)
    requires top > 0
    requires var run := Window(s, top);
      var b := if |run| > |best| then run else best;
      |b| <= |r| && (r == b || FirstLongest(s, top - 1, b, r))
    ensures r == best || FirstLongest(s, top, best, r)
  {
    var run := Window(s, top);
    var b := if |run| > |best| then run else best;
    if r != best {
      if r == b {
        assert ShorterAbove(s, top, top, |r|);
        assert 1 <= top <= top && r == Window(s, top) && |r| > |best|;
      } else {
        var t :| 1 <= t <= top - 1 && r == Window(s, t) && |r| > |b| && ShorterAbove(s, t, top - 1, |r|);
        forall t' | t < t' <= top ensures |Window(s, t')| < |r| {
          if t' == top {
            assert |run| <= |b|;
          } else {
            assert ShorterAbove(s, t, top - 1, |r|);
          }
        }
        assert ShorterAbove(s, t, top, |r|);
        assert 1 <= t <= top && r == Window(s, t) && |r| > |best|;
      }
    }
  }

  /** The scan's result is a window: at most five cards, strictly descending, five exactly when some top has a full run. */
  lemma GapCardsShape(pool: seq<Card>)
    ensures |GapCards(pool)| <= RunLength
    ensures StrictlyDesc(GapCards(pool))
    ensures |GapCards(pool)| == RunLength <==> exists t :: 1 <= t <= |Faces| && HasRun(CheckSet(pool), t)
  {
    var s := CheckSet(pool);
    var g := GapCards(pool);
    assert g == BestRun(s, |Faces|, []);
    BestRunSpec(s, |Faces|, []);
    if g != [] {
      var t := TopOfGapCards(pool);
      WindowShape(s, t);
    }
  }

  /** A non-empty scan result is the window of some top t, and every higher top had a strictly shorter window. */
  ghost function TopOfGapCards(pool: seq<Card>): (t: int)
    requires GapCards(pool) != []
    ensures 1 <= t <= |Faces| && GapCards(pool) == Window(CheckSet(pool), t)
    ensures forall t' :: t < t' <= |Faces| ==> |Window(CheckSet(pool), t')| < |GapCards(pool)|
  {
    var s := CheckSet(pool);
    var g := GapCards(pool);
    assert g == BestRun(s, |Faces|, []);
    BestRunSpec(s, |Faces|, []);
    assert FirstLongest(s, |Faces|, [], g);
    var t :| 1 <= t <= |Faces| && g == Window(s, t) && |g| > 0 && ShorterAbove(s, t, |Faces|, |g|);
    t
  }

  /**
   * A successful scan (five cards) is the run t - 1, t - 2, ..., t - 5 for the
   * highest top t whose run is complete: no higher straight is passed over.
   */
  lemma GapCardsIsHighestStraight(pool: seq<Card>)
    requires |GapCards(pool)| == RunLength
    ensures HasRun(CheckSet(pool), TopOfGapCards(pool))
    ensures forall k :: 0 <= k < RunLength ==> GapCards(pool)[k].rank == TopOfGapCards(pool) - 1 - k
    ensures forall t' :: TopOfGapCards(pool) < t' <= |Faces| ==> !HasRun(CheckSet(pool), t')
  {
    var s := CheckSet(pool);
    var t := TopOfGapCards(pool);
    WindowFull(s, t);
    forall t' | t < t' <= |Faces| ensures !HasRun(s, t') {
      WindowFull(s, t');
    }
  }

  /** Every ace of the pool gives the check set a card of rank 0, so 5-4-3-2-A is reachable. */
  lemma AceGivesLowCard(pool: seq<Card>, c: Card)
    requires AllRanked(pool) && c in pool && c.value == "A"
    ensures HasRank(CheckSet(pool), 0)
  {
    StripWildsOfRankedPool(pool);
    var plain := StripWilds(pool).1;
    var i :| 0 <= i < |plain| && plain[i] == c;
    AceHasLowCopy(plain, i);
    assert LowAce(c) in multiset(plain + LowAces(plain));
    assert LowAce(c) in multiset(CheckSet(pool));
  }

  /** The scan works within one suit: when every card of the pool has suit `suit`, so does every card it can return. */
  lemma GapCardsKeepSuit(pool: seq<Card>, suit: string)
    requires forall c :: c in pool ==> c.suit == suit
    ensures forall c :: c in GapCards(pool) ==> c.suit == suit
  {
    var plain := StripWilds(pool).1;
    var s := CheckSet(pool);
    LowAcesKeepSuit(plain, suit);
    forall c | c in s ensures c.suit == suit {
      assert c in multiset(plain + LowAces(plain));
      assert c in plain + LowAces(plain);
    }
    var g := GapCards(pool);
    if g != [] {
      var t := TopOfGapCards(pool);
      assert forall c :: c in Window(s, t) ==> c in s;
    }
  }
}
