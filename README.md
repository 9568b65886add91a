# pokersolver, standard game: a verified model

This project models the hand classifier and comparator of pokersolver
(`pokersolver.js`), restricted to the rule set that `Hand.solve` always
uses, the `standard` game: five-card hands, nine evaluators from
StraightFlush down to HighCard, no wild cards, no wheel rule, no
qualification threshold, and kickers kept.

The modules follow the program's structure:

- `Cards` (cards.dfy): the 14-entry face table, `new Card(str)` and
  `Card.sort`, which is modelled as a stable sort by rank, descending.
- `Rules` (rules.dfy): the evaluator kinds, the `standard` game record and
  the strength rank that the Hand constructor derives from a kind's position
  in `handValues`.
- `Indices` (indices.dfy): what the Hand constructor builds from the sorted
  pool. `this.suits` is an object, modelled as a list of suit entries in
  insertion order, which is the order of first appearance in the pool.
  `for (let suit in this.suits)` does not always follow that order: a
  JavaScript object lists its array-index keys first, in ascending order. A
  suit is one character, so the digit suits "0" to "9" are visited first,
  then the other suits in insertion order (`ForInOrder`, `SuitOrder`).
  `this.values` becomes a sequence of rank buckets, reversed so that
  bucket 0 holds the highest rank present; a hole in the array is an empty
  bucket, and `getNumCardsByRank` is the size of a bucket. This module also
  holds `getCardsForFlush`, `nextHighest` and `stripWilds` with no wild cards.
- `Straights` (straights.dfy): `Straight.getGaps`. Each ace gets a rank-0
  low-ace copy, and the run scan runs once per candidate top rank. Both are
  imperative methods proved against the functions `Window`, `BestRun` and
  `GapCards`. The lemmas show that a five-card result is the highest
  complete run of five consecutive ranks.
- `Evaluators` (evaluators.dfy): what each evaluator's `solve()` leaves in
  `this.cards` and whether it reports success, as functions of the sorted
  pool. The lemmas state what each hand type means: the highest rank with
  exactly four, three or two cards, plus kickers; the full house's triple
  and pair; the two highest pairs; the first suit with five cards; five
  consecutive ranks of one suit.
- `Ranking` (ranking.dfy): `compare`, `loseTo` and `winners` over
  snapshots of solved hands (strength rank plus chosen cards). It proves
  antisymmetry, reflexivity and, for hands with five cards, transitivity.
  It also proves that the winners are exactly the top-ranked hands beaten
  by none.
- `Hands` (hands.dfy): the `Hand` class. Its constructor computes the
  strength rank, sorts the pool, builds the indices and runs `solve()`. Its
  `solve` methods fill `cards`, `isPossible` and the Royal Flush label.
  `Classify` is `Hand.solve(cards)`: the duplicate check, then the
  evaluators in table order until one succeeds.
  That first success is not always the strongest hand type the cards hold.
  StraightFlush looks only at the first visited suit with five or more
  cards, so Ah Kh 9h 7h 3h with 9s 8s 7s 6s 5s is a Flush. The of-a-kind
  evaluators need a rank with exactly n cards, and the duplicate check
  compares strings, so "Ah", "AH", "As", "Ad", "Ac" are five aces with no
  FourOfAKind and end as HighCard. `SolvedIsStrongest` therefore compares
  the result with the evaluators that succeed.

## Model

| member | source | states |
|---|---|---|
| Seqs.Filter | pokersolver.js:298-300 | `filter` keeps exactly the elements satisfying the predicate, in order, and never lengthens the list |
| Seqs.Take | pokersolver.js:464 | `slice(0, n)` is a prefix of length min(n, length) |
| Seqs.FirstWhere | pokersolver.js:80-85 | a scan that stops at its first hit: the position it returns passes the test and no earlier one does, or it is the length when none passes |
| Seqs.FirstWhereIs | pokersolver.js:80-85 | a scan that stops at i, having passed only elements that fail the test, found `FirstWhere` |
| Seqs.Reverse | pokersolver.js:121 | `reverse()` keeps the length and puts element k at position length-1-k |
| Cards.IndexOf | pokersolver.js:33 | `values.indexOf(v)` is -1 exactly when v is not in the table, and otherwise is the first position holding v |
| Cards.Lower | pokersolver.js:32 | lower-casing keeps the length of the suit string |
| Cards.LowerChar | pokersolver.js:32 | `toLowerCase` on one character: ASCII capitals become lower case, every other character is kept; `Cards.Parse` states its use |
| Cards.Parse | pokersolver.js:30-35 | the value is the first character, the suit is the lower-cased second character (one Unicode character, see Left out), the rank is -1 exactly for an unknown face and otherwise is the face's table position |
| Cards.FacesDistinct | pokersolver.js:9-24 | the 14 faces of the table are pairwise distinct |
| Cards.SameFaceSameRank | pokersolver.js:33 | two cards with face ranks show the same face exactly when they have the same rank |
| Cards.ParseRankIsTablePosition | pokersolver.js:33 | a card string starting with face k parses to rank k: "1" is 0, "2" is 1, up to "A", which is 13 |
| Cards.Order | pokersolver.js:41-49 | `Card.sort` gives -1, 1 or 0 by comparing ranks; its meaning is stated by `Cards.OrderSpec` |
| Cards.OrderSpec | pokersolver.js:41-49 | the comparator is consistent: swapping the cards flips its sign, it is negative exactly when the first card ranks higher, and zero exactly on equal ranks |
| Cards.Insert | pokersolver.js:41-49 | inserting into a rank-descending list keeps it rank-descending and adds exactly the one card |
| Cards.SortedCons | pokersolver.js:41-49 | a card ranking at least as high as the head of a sorted list can be put in front of it |
| Cards.RanksAtMost | pokersolver.js:41-49 | rearranging cards keeps a rank bound |
| Cards.SortByRank | pokersolver.js:100 | `sort(Card.sort)` is a permutation of its input, rank-descending |
| Cards.SortSortedIsIdentity | pokersolver.js:195 | sorting a rank-descending list leaves it unchanged |
| Cards.InsertKeepsRankOrder | pokersolver.js:41-49 | insertion puts the new card ahead of the cards of its rank and leaves the other cards of each rank in order |
| Cards.SortIsStable | pokersolver.js:100 | the sort is stable: the cards of each rank keep their input order |
| Rules.StandardRules | pokersolver.js:1015-1034 | the standard game is named "standard" (which turns on the duplicate check), has five-card hands and a five-card straight or flush, keeps kickers, does not rank the wheel second, and lists each evaluator once, without RoyalFlush |
| Rules.PositionOf | pokersolver.js:80-85 | the constructor's lookup loop, a `FirstWhere` scan, stops at the first position holding the kind, or at the table's end |
| Rules.PositionOfIs | pokersolver.js:80-85 | a scan stopping at i that has passed only other kinds found the kind's position |
| Rules.StrengthRank | pokersolver.js:79-86 | a strength is at most the table length |
| Rules.StrengthIsTablePosition | pokersolver.js:79-86 | `rank = handValues.length - i`: StraightFlush 9 down to HighCard 1, and RoyalFlush, absent from the standard table, 0 |
| Rules.StrengthFollowsTableOrder | pokersolver.js:1017-1027 | an evaluator earlier in the standard table is strictly stronger, and every one in it has a positive strength |
| Indices.SlotOf | pokersolver.js:112 | the lookup `this.suits[card.suit]`, a `FirstWhere` scan over the entries, finds the entry of that suit, or reports none |
| Indices.AddToSuit | pokersolver.js:112-116 | the card is pushed under its suit, whose list is created empty when missing: a new suit gets a new last entry, a known one grows by the card; `Indices.SuitIndexSpec` and `Indices.SuitIndexOrder` state what the loop of these steps builds |
| Indices.SuitIndex | pokersolver.js:104-119 | the suit index the constructor's loop builds over the sorted pool, one `AddToSuit` per card; its meaning is stated by `Indices.SuitIndexSpec` and `Indices.SuitIndexOrder` |
| Indices.AddToSuitKeepsKeysDistinct | pokersolver.js:112-116 | adding a card to the suit index keeps one entry per suit |
| Indices.AddToSuitKeepsEntries | pokersolver.js:112-116 | after a card is added, each entry still holds exactly its suit's cards, in pool order |
| Indices.OfSuitSnoc | pokersolver.js:116 | a card appended to the pool joins its own suit's cards and no other suit's |
| Indices.NewSuitIsAbsent | pokersolver.js:112 | a suit with no entry in the index has no card in the pool |
| Indices.AddToSuitCoversPool | pokersolver.js:112-116 | after a card is added, every card seen so far has an entry for its suit |
| Indices.SuitIndexSpec | pokersolver.js:104-119 | the suit loop gives one entry per suit present, each holding that suit's cards in pool order |
| Indices.FirstOfSuit | pokersolver.js:104-116 | the position of the first pool card of a suit, or the pool's length: that card has the suit and no earlier card does |
| Indices.FirstOfSuitIs | pokersolver.js:104-116 | a position holding the suit with none of it before is the first appearance |
| Indices.FirstOfSuitSnoc | pokersolver.js:104-116 | appending a card moves no first appearance already in the pool |
| Indices.FirstOfNewSuit | pokersolver.js:112 | a suit that gets a new entry first appears at the card being added |
| Indices.FirstsUnmoved | pokersolver.js:112-116 | pushing a card moves the first appearance of no key already present |
| Indices.SameKeysKeepOrder | pokersolver.js:112-116 | a push under an existing key keeps the keys, so their first-appearance order holds |
| Indices.NewKeyKeepsOrder | pokersolver.js:112-116 | a new key goes last, and its suit first appears after every other key's |
| Indices.AddToSuitKeepsOrder | pokersolver.js:112-116 | adding a card keeps the keys in order of first appearance in the pool |
| Indices.SuitIndexOrder | pokersolver.js:104-119 | the keys of `this.suits` are inserted in order of first appearance: every key occurs in the pool, and an earlier key first occurs earlier |
| Indices.DigitOf | pokersolver.js:565 | an array-index key (one decimal digit) has a value from 0 to 9 |
| Indices.SameDigitSameKey | pokersolver.js:565 | two array-index keys with the same value are the same key |
| Indices.OneEntryPerDigit | pokersolver.js:565 | with distinct keys, at most one entry has a given digit key |
| Indices.DigitEntries | pokersolver.js:565 | the entries with digit keys d, d+1, ..., 9, in that order; its meaning is stated by `Indices.DigitEntriesSpec` |
| Indices.DigitEntriesSpec | pokersolver.js:565 | the digit entries from d on are exactly the entries keyed by a digit at least d, each once, in strictly ascending key order |
| Indices.DigitEntriesIndexKeys | pokersolver.js:565 | every digit entry has an array-index key |
| Indices.ForInOrder | pokersolver.js:390 | `for (let suit in this.suits)` visits the array-index keys in ascending order, then the other keys in insertion order; its meaning is stated by `Indices.ForInOrderSpec` and `Indices.ForInOrderKeepsInsertionOrder` |
| Indices.ForInOrderSpec | pokersolver.js:390 | with distinct keys, `for..in` visits every entry exactly once, and a digit key is preceded only by smaller digit keys |
| Indices.ForInOrderKeepsInsertionOrder | pokersolver.js:390 | after the digit keys, `for..in` keeps the insertion order of the other keys |
| Indices.SuitOrder | pokersolver.js:565 | the suit entries of a pool in the order the suit loops visit them; its meaning is stated by `Indices.SuitOrderSpec` |
| Indices.SuitOrderCovers | pokersolver.js:565-567 | every visited entry holds its suit's pool cards, and every suit of the pool is visited |
| Indices.SuitOrderFollowsPool | pokersolver.js:565 | the suits other than digits are visited in order of first appearance, after every digit suit |
| Indices.SuitOrderSpec | pokersolver.js:565-572 | the suit loops visit each suit of the pool exactly once, with its cards in pool order: first the digit suits in ascending order, then the others in order of first appearance |
| Indices.Span | pokersolver.js:113 | the length of `this.values` is 0 exactly for an empty pool |
| Indices.SpanBounds | pokersolver.js:113 | every card ranks below the length of `this.values`, and the top slot holds a card |
| Indices.IndexesRanksStep | pokersolver.js:113-117 | growing `this.values` to cover a card's rank and pushing the card keeps slot r equal to the pool's cards of rank r |
| Indices.SpanSnoc | pokersolver.js:113 | appending a card stretches `this.values` to cover its rank |
| Indices.OfRankSnoc | pokersolver.js:117 | a pushed card joins its own rank's slot and no other |
| Indices.OfRankAboveSpan | pokersolver.js:113 | no card has a rank at or beyond the end of `this.values` |
| Indices.ReversedRanksAreRankIndex | pokersolver.js:121 | reversing the rank slots gives the bucket list, with the highest rank first |
| Indices.RankIndex | pokersolver.js:121 | there is one bucket per rank up to the highest present |
| Indices.BucketContents | pokersolver.js:113-121 | a bucket holds exactly the pool cards of its rank |
| Indices.FirstBucketHoldsTopRank | pokersolver.js:113-121 | bucket 0 of a non-empty pool is not a hole, and it holds the highest rank |
| Indices.NextHighest | pokersolver.js:234-254 | `nextHighest()` holds exactly the pool cards not already chosen |
| Indices.StripWilds | pokersolver.js:353-369 | `stripWilds` splits a list into its rank -1 cards and the others |
| Indices.StripWildsOfRankedPool | pokersolver.js:727-729 | a pool without wild cards is stripped to itself |
| Indices.NextHighestKickers | pokersolver.js:234-254 | `nextHighest().slice(0, n)` over a sorted pool gives unchosen cards, rank-descending, each at least as high as every unchosen card left out; it is short of n only when nothing is left out |
| Indices.FilterSorted | pokersolver.js:195 | the cards taken from a sorted pool are still sorted |
| Indices.CardsForFlush | pokersolver.js:194-195 | `getCardsForFlush(suit)` with no wild cards: the suit's cards, sorted by rank; its meaning is stated by `Indices.CardsForFlushOfSortedPool` |
| Indices.CardsForFlushOfSortedPool | pokersolver.js:194-195 | `getCardsForFlush(suit)`, for a suit the loops visit, is exactly that suit's cards, in pool order: the in-place sort changes nothing |
| Straights.LowAces | pokersolver.js:731-736 | the low-ace copies pushed while walking the list; its own contract only bounds their number by the list's length, and `Straights.LowAcesSpec` states what they are |
| Straights.LowAcesSpec | pokersolver.js:731-736 | the low aces are exactly one copy of each ace of the list, in the list's order: copy i is `new Card("1" + suit)` of the i-th ace |
| Straights.LowAcesAreLow | pokersolver.js:734 | each copy shows "1" and has rank 0, so it is never copied again |
| Straights.AceHasLowCopy | pokersolver.js:733-734 | every ace of the list gets its low-ace copy |
| Straights.LowAcesKeepSuit | pokersolver.js:734 | a copy keeps its ace's suit |
| Straights.AppendLowAces | pokersolver.js:731-736 | the loop that appends to `cardsToCheck` while walking it ends with the list followed by one low ace per ace |
| Straights.Window | pokersolver.js:748-766 | the run for one top rank is made of the cards of the list |
| Straights.Scan | pokersolver.js:748-766 | the inner loop with its `gapCount` accumulator computes the window of the top rank |
| Straights.WindowSnoc | pokersolver.js:750-766 | one more card joins the window exactly when it is kept |
| Straights.WindowStops | pokersolver.js:760-761 | the inner loop's `break` loses nothing: no later card of a sorted list is kept |
| Straights.WindowShape | pokersolver.js:748-766 | a window has strictly descending ranks, all in [top-5, top-1] |
| Straights.DescentBound | pokersolver.js:748-766 | strictly descending ranks fall by at least one per position |
| Straights.WindowHasEveryRank | pokersolver.js:750-766 | each rank of the window's range present in the list shows up in the window |
| Straights.WindowFull | pokersolver.js:748-766 | a window has at most five cards, and it has five exactly when all five ranks are present; they are then top-1 down to top-5 |
| Straights.FullWindowExact | pokersolver.js:748-766 | a strictly descending window containing all five ranks lists them in order |
| Straights.LongestRun | pokersolver.js:746-773 | the outer loop, with its early `break`, computes the best run from rank 14 down |
| Straights.BestRunSpec | pokersolver.js:746-773 | the best run is never shorter than a scanned window, has five cards exactly when some top has a full run, and is the first strictly longest window, so higher tops win ties |
| Straights.FirstLongestStep | pokersolver.js:767-769 | `if (cardsList.length > gapCards.length)` keeps the first strictly longest window as the scan moves down one rank |
| Straights.BestRun | pokersolver.js:746-773 | the outer scan's result from a top rank down, given the best run found above it; its meaning is stated by `Straights.BestRunSpec` |
| Straights.CheckSet | pokersolver.js:727-738 | `cardsToCheck`: the non-wild cards plus one low-ace copy per ace, sorted; `Straights.LowAcesSpec` and `Cards.SortByRank` state its parts |
| Straights.GapCards | pokersolver.js:716-776 | `getGaps()` on a pool: the scan from top rank 14 over the pool and its low aces; its meaning is stated by `Straights.GapCardsShape` and `Straights.GapCardsIsHighestStraight` |
| Straights.GetGaps | pokersolver.js:716-776 | `getGaps()` strips wild cards, adds the low aces, sorts, and scans |
| Straights.GapCardsShape | pokersolver.js:716-776 | the result has at most five cards, strictly descending, and five exactly when some run of five is complete |
| Straights.TopOfGapCards | pokersolver.js:746-773 | a non-empty result is the window of one top rank, and every higher top's window is strictly shorter |
| Straights.GapCardsIsHighestStraight | pokersolver.js:746-773 | a five-card result is the run top-1 down to top-5, and no higher top has a complete run |
| Straights.AceGivesLowCard | pokersolver.js:731-736 | an ace puts a rank-0 card in the scanned list, which makes 5-4-3-2-A reachable |
| Straights.GapCardsKeepSuit | pokersolver.js:734 | the scan over cards of one suit returns only cards of that suit |
| Evaluators.FirstOfSize | pokersolver.js:449-450 | the scan stops at the first bucket with exactly n cards, having passed only other sizes |
| Evaluators.FirstPairBesides | pokersolver.js:510-515 | FullHouse's second scan stops at the first bucket of two or more cards whose face differs from the triple's |
| Evaluators.FirstSuitWith | pokersolver.js:565-572 | the suit scan stops at the first suit with enough cards, having passed only suits with fewer |
| Evaluators.OfAKind | pokersolver.js:446-468 | FourOfAKind, ThreeOfAKind and OnePair: the first bucket of exactly the size, then kickers; its meaning is stated by `Evaluators.OfAKindLead`, `Evaluators.OfAKindHighest` and `Evaluators.OfAKindKickers` |
| Evaluators.FullHouseCards | pokersolver.js:492-541 | the first bucket of exactly three, then all cards of the first other bucket of two or more; its meaning is stated by `Evaluators.FullHouseSpec` and `Evaluators.FullHouseSucceedsIff` |
| Evaluators.FlushCards | pokersolver.js:561-572 | every card of the first visited suit with at least five cards; its meaning is stated by `Evaluators.FlushSpec` |
| Evaluators.StraightCards | pokersolver.js:655-709 | the scan's run, cut to five cards when it qualifies; its meaning is stated by `Evaluators.StraightSpec` |
| Evaluators.StraightFlushCards | pokersolver.js:383-415 | the straight among the cards of the first visited suit with at least five cards; its meaning is stated by `Evaluators.StraightFlushSpec` and `Evaluators.StraightFlushSucceedsIff` |
| Evaluators.TwoPairCards | pokersolver.js:873-920 | the two first buckets of exactly two, then one kicker; its meaning is stated by `Evaluators.TwoPairSpec`, `Evaluators.TwoPairSucceedsIff` and `Evaluators.TwoPairKickers` |
| Evaluators.HighCardCards | pokersolver.js:985-1004 | the first five cards of the pool, sorted; its meaning is stated by `Evaluators.HighCardSpec` |
| Evaluators.IsRoyal | pokersolver.js:416-418 | the "Royal Flush" label is chosen exactly when the first card is an ace; `Hands.Hand.SolveStraightFlush` states its use |
| Evaluators.Selected | pokersolver.js:344-346 | the cards the evaluator of each kind leaves in `this.cards`; `Hands.Hand.Solve` is proved to compute it |
| Evaluators.Possible | pokersolver.js:344-348 | what each evaluator's `solve()` returns; `Hands.Hand.Solve` is proved to compute it |
| Evaluators.FirstOfSizeIs | pokersolver.js:449-450 | a scan that stops at k, having rejected every bucket before it, found FirstOfSize |
| Evaluators.FirstPairBesidesIs | pokersolver.js:510-515 | a scan that stops at k, having rejected every bucket before it, found FirstPairBesides |
| Evaluators.FirstSuitWithIs | pokersolver.js:565-572 | a scan that stops at k, having rejected every suit before it, found FirstSuitWith |
| Evaluators.OfAKindAt | pokersolver.js:446-468 | once the bucket scan stops, the hand is that bucket plus the best kickers, or nothing |
| Evaluators.FullHouseCardsAt | pokersolver.js:492-541 | once both scans stop, the hand is the triple's bucket plus the pair's bucket, or what was found so far |
| Evaluators.TwoPairCardsAt | pokersolver.js:873-920 | once the scan has found two pair buckets, the hand is both plus one kicker; with one pair it is that pair alone |
| Evaluators.StraightFlushCardsAt | pokersolver.js:390-415 | once the suit scan stops, the hand is the straight among that suit's cards, or nothing |
| Evaluators.BucketOfRank | pokersolver.js:113-121 | bucket Span-1-r holds the cards of rank r, and ranks outside the span have none |
| Evaluators.BucketFacts | pokersolver.js:169-186 | with no wild cards, `getNumCardsByRank(i)`, the size of bucket i, is the number of pool cards of the bucket's rank; the bucket holds exactly those cards, led by that rank |
| Evaluators.OfAKindLead | pokersolver.js:446-480 | FourOfAKind, ThreeOfAKind and OnePair lead with all the pool's cards of one rank, which has exactly 4, 3 or 2 cards, then the highest remaining cards up to five |
| Evaluators.OfAKindKickers | pokersolver.js:446-468 | the kickers are rank-descending pool cards of other ranks, each at least as high as every pool card the hand leaves out; the hand is short of five only when it leaves nothing out |
| Evaluators.OfAKindHighest | pokersolver.js:446-480 | they succeed exactly when some rank has exactly that many cards, and no higher rank does |
| Evaluators.FullHouseTripleIsThreeOfAKindLead | pokersolver.js:492-507 | the full house's triple is the one ThreeOfAKind would lead with |
| Evaluators.FullHousePairBucket | pokersolver.js:509-541 | the pair bucket differs in rank from the triple, and no other higher rank has two or more cards |
| Evaluators.PairScanPassed | pokersolver.js:510-515 | every rank the second scan passed, other than the triple's, has fewer than two cards |
| Evaluators.FullHouseSpec | pokersolver.js:488-553 | a full house is all cards of the highest rank with exactly three, then all cards of the highest other rank with two or more (three Kings and three Queens give Kings over Queens) |
| Evaluators.FullHouseSucceedsIff | pokersolver.js:488-553 | FullHouse succeeds exactly when some rank has exactly three cards and another rank has two or more |
| Evaluators.TwoPairSpec | pokersolver.js:870-936 | two pair is the two highest ranks with exactly two cards, higher first, then the highest remaining card |
| Evaluators.TwoPairKickers | pokersolver.js:873-920 | the kicker is a pool card of neither pair's rank, at least as high as every pool card the hand leaves out; the hand is short of five only when it leaves nothing out |
| Evaluators.TwoPairSucceedsIff | pokersolver.js:870-936 | TwoPair succeeds exactly when two ranks have exactly two cards each |
| Evaluators.FlushSpec | pokersolver.js:561-590 | Flush returns every card of the first suit, in `for..in` order (digit suits ascending, then first appearance), that holds at least five, rank-descending; every suit visited before it has fewer; it returns nothing when no suit has five |
| Evaluators.StraightSpec | pokersolver.js:655-709 | Straight succeeds exactly when the pool, with its low aces, holds five consecutive ranks; the hand is then the highest such run, ranks descending by one |
| Evaluators.StraightOfOneSuit | pokersolver.js:409-414 | a straight found among cards of one suit is five consecutive ranks of that suit |
| Evaluators.StraightFlushSpec | pokersolver.js:383-430 | a straight flush is five consecutive descending ranks, all of the first suit, in `for..in` order, holding at least five cards |
| Evaluators.StraightFlushSucceedsIff | pokersolver.js:383-430 | StraightFlush succeeds exactly when the first visited suit with at least five cards has five consecutive ranks (with low aces); the hand is then that suit's straight, and no higher run of that suit exists |
| Evaluators.FlushCandidatesShareSuit | pokersolver.js:390-393 | the cards passed to the nested Straight all carry their suit |
| Evaluators.HighCardSpec | pokersolver.js:985-1004 | HighCard on a non-empty sorted pool is the pool's first five cards as they are, led by its highest card |
| Hands.SortKeepsRanked | pokersolver.js:100 | sorting keeps every card a face card |
| Hands.SuitCardsRanked | pokersolver.js:112-116 | the cards under any suit are face cards |
| Hands.SolveStraightOf | pokersolver.js:655-709 | Straight's `solve` computes the straight of the pool, cut to five cards when it qualifies |
| Hands.FirstFlushSuit | pokersolver.js:390-397 | the suit loop of StraightFlush stops at the first suit with at least five cards, having passed only suits with fewer |
| Hands.StraightOfSuit | pokersolver.js:409-414 | `new Straight(possibleStraight)` sorts the cards and finds their straight |
| Hands.StraightFlushOf | pokersolver.js:390-415 | StraightFlush's search computes the straight flush of the pool |
| Hands.Hand.StrengthOf | pokersolver.js:79-86 | the lookup loop computes the kind's strength |
| Hands.Hand.IndexPool | pokersolver.js:102-121 | the index loop and `reverse()` compute the suit index and the rank buckets of the sorted pool |
| Hands.Hand.constructor | pokersolver.js:56-123 | a new hand has its kind's strength, the sorted pool and its indices, and the result of its evaluator's `solve()` |
| Hands.Hand.Solve | pokersolver.js:122 | `this.solve()` leaves the evaluator's chosen cards, its verdict and the Royal label |
| Hands.Hand.SolveSuited | pokersolver.js:383-438 | StraightFlush, RoyalFlush and Flush leave their cards, verdict and label |
| Hands.Hand.SolveRun | pokersolver.js:598-710 | Straight and HighCard leave their cards and verdict |
| Hands.Hand.SolveRanked | pokersolver.js:441-554 | FourOfAKind, FullHouse, ThreeOfAKind, TwoPair and OnePair leave their cards and verdict |
| Hands.Hand.SolveOfAKind | pokersolver.js:446-480 | the bucket loop builds the of-a-kind hand, and `solve()` reports whether it has at least size cards |
| Hands.Hand.SolveFullHouse | pokersolver.js:488-553 | the two bucket loops build the full house, and `solve()` reports whether it has five cards |
| Hands.Hand.SolveTwoPair | pokersolver.js:870-936 | the bucket loop builds two pair, and `solve()` reports whether it has four cards |
| Hands.Hand.SolveFlush | pokersolver.js:561-590 | the suit loop builds the flush, and `solve()` reports whether it has five cards |
| Hands.Hand.SolveStraightFlush | pokersolver.js:383-438 | builds the straight flush and reports whether it has five cards; the name is "Royal Flush" exactly when the first card is an ace |
| Hands.Hand.SolveHighCard | pokersolver.js:985-1004 | HighCard always succeeds with a non-empty hand |
| Hands.Hand.Compare | pokersolver.js:130-153 | `compare(a)` computes the comparison of the two hands' strengths and cards |
| Hands.Hand.LoseTo | pokersolver.js:160-162 | `loseTo(hand)` is `compare(hand) > 0` |
| Hands.ParseAll | pokersolver.js:89-91 | each card string becomes the card `new Card` makes of it |
| Hands.ParseAllRanked | pokersolver.js:30-35 | strings naming a face give face cards |
| Hands.DuplicatesSnoc | pokersolver.js:74 | a list grown by a string has a repeat exactly when it had one or already held the string |
| Hands.HasDuplicates | pokersolver.js:74 | two positions of the input hold the same string; `Hands.CheckDuplicates` ties it to the `Set` size test |
| Hands.CheckDuplicates | pokersolver.js:73-76 | `new Set(cards).size !== cards.length` holds exactly when two positions hold the same string |
| Hands.FirstTrue | pokersolver.js:344-349 | the loop's stopping position lies between its start and the end |
| Hands.FirstTrueSpec | pokersolver.js:344-349 | the loop stops on a success, if any, having passed only failures |
| Hands.FirstTrueAtMost | pokersolver.js:344-349 | the loop stops no later than any success |
| Hands.FirstTruePast | pokersolver.js:344-349 | the loop passes a failure it has reached |
| Hands.Outcomes | pokersolver.js:341-349 | there is one verdict per evaluator of the table |
| Hands.FirstPossible | pokersolver.js:344-349 | the loop stops within the table or at its end |
| Hands.FirstPossiblePast | pokersolver.js:344-349 | an evaluator the loop reaches that fails is passed over |
| Hands.FirstPossibleAtMost | pokersolver.js:344-349 | the loop stops no later than any evaluator that succeeds |
| Hands.SomeEvaluatorSucceeds | pokersolver.js:1017-1027 | HighCard closes the table and always succeeds, so some evaluator does |
| Hands.SolvedIsStrongest | pokersolver.js:335-352 | the chosen hand is at least as strong as every evaluator that succeeds on the pool |
| Hands.FirstSolved | pokersolver.js:344-351 | the loop returns a hand of the first evaluator, in table order, that succeeds; it holds that evaluator's strength rank, cards and Royal Flush label, and its `isPossible` is true |
| Hands.Classify | pokersolver.js:335-352 | `Hand.solve(cards)` fails exactly on a repeated card string or an empty list, and on repeats first; otherwise it returns the hand of the first succeeding evaluator over the sorted pool, with that evaluator's strength rank, cards, verdict and Royal Flush label |
| Ranking.CompareFrom | pokersolver.js:137-150 | the card loop gives -1, 0 or 1 |
| Ranking.Compare | pokersolver.js:130-153 | `compare` gives -1, 0 or 1 |
| Ranking.CompareFromSpec | pokersolver.js:137-150 | the card comparison is 0 exactly when no position of 0..4 has cards of different ranks in both hands; otherwise the first such position decides |
| Ranking.CompareFromAntisymmetric | pokersolver.js:137-150 | swapping the hands negates the card comparison |
| Ranking.CompareAntisymmetric | pokersolver.js:130-162 | `b.compare(a) == -a.compare(b)`, and a loses to b exactly when b beats a |
| Ranking.CompareSelf | pokersolver.js:130-162 | a hand ties with itself and does not lose to itself |
| Ranking.CompareSpec | pokersolver.js:130-153 | a higher strength always wins; at equal strength the first deciding card position decides, and there is a tie when none decides |
| Ranking.CompareFromTransitive | pokersolver.js:137-150 | between hands with five cards, the card comparison is transitive |
| Ranking.CompareTransitive | pokersolver.js:130-153 | between hands with five cards, "does not lose to" is transitive, and a loss followed by a loss or a tie is a loss |
| Ranking.MaxRank | pokersolver.js:302-307 | `Math.max` of the strengths is attained and bounds them all |
| Ranking.HighestRank | pokersolver.js:302-307 | the maximum computed step by step is `Math.max` of the strengths |
| Ranking.MaxIsHighestRank | pokersolver.js:302-307 | a strength that bounds all and is attained is the maximum |
| Ranking.SelectWhere | pokersolver.js:309-311 | the filter on the highest strength keeps exactly those hands, in order |
| Ranking.LosesToAny | pokersolver.js:314-322 | the inner loop of the last filter reports a loss exactly when the hand loses to some hand of the list |
| Ranking.DropLosers | pokersolver.js:313-323 | the last filter keeps exactly the hands that lose to none of the list, in order |
| Ranking.SurvivorsSnoc | pokersolver.js:313-323 | one more hand examined joins the survivors exactly when it loses to none |
| Ranking.Winners | pokersolver.js:297-326 | `Hand.winners` computes the hands of the highest strength beaten by none of that strength |
| Ranking.Highest | pokersolver.js:302-311 | the hands whose strength is the maximum, in input order; `Ranking.WinnersMembership` states its meaning |
| Ranking.Unbeaten | pokersolver.js:313-323 | the hand loses to no hand of the list, the test of the last filter |
| Ranking.WinnersOf | pokersolver.js:297-326 | the hands of the highest strength that lose to none of that strength, in input order; its meaning is stated by `Ranking.WinnersMembership` and `Ranking.WinnersKeepInputOrder` |
| Ranking.WinnersKeepInputOrder | pokersolver.js:309-325 | the winners are the input list with the losers removed: each winning hand stays, duplicates included, in its original order |
| Ranking.WinnersMembership | pokersolver.js:297-326 | a hand wins exactly when it is in the list, no hand has a higher strength, and it loses to no hand of its strength |
| Ranking.WinnersTie | pokersolver.js:313-323 | any two winners tie |
| Ranking.WinnersOfOne | pokersolver.js:297-326 | a one-element list comes back unchanged |
| Ranking.Strongest | pokersolver.js:313-323 | a non-empty list of five-card hands has a hand that loses to none of them |
| Ranking.WinnersNonEmpty | pokersolver.js:297-326 | a non-empty list of five-card hands always has a winner |

## Left out

- Wild cards: the standard game has none. So the wild branches of the evaluators, of `getNumCardsByRank`, `getCardsForFlush` and `getGaps`, and `resetWildCards` are not modelled; `StripWilds` is kept and proved to leave a wild-free pool alone.
- `getWheel` and the wheel branch of Straight's `solve`: `wheelStatus` is 0 in the standard game.
- `qualifiesHigh` and the first filter of `winners`: `lowestQualified` is null in the standard game, so every hand qualifies and the filter keeps every hand.
- `noKickers` truncation: false in the standard game.
- The `nonCards` merge of StraightFlush: it runs only outside the standard game.
- The `descr` and `name` strings of a hand, `Card.toString`, `Hand.toString` and `toArray` are not modelled. Only the choice of the "Royal Flush" label is kept, as the field `royal`.
- The `Game` class, the name lookup and the export hooks: the model uses the `standard` record as a constant. `cards || [""]` is not modelled, since the input is a list.
- Hands.Classify: requires every card string to start with one of the 14 faces. The source accepts any string: an unknown face gets rank -1 and is then handled as a wild card, which the standard game never expects. `toLowerCase` is modelled for ASCII letters only, and a suit is one Unicode character, not one UTF-16 code unit (see the `Cards.Parse` line).
- Cards.Parse: a string here is a sequence of Unicode characters, while `substr(1, 1)` takes one UTF-16 code unit. The two agree for every suit character of the Basic Multilingual Plane. For a suit character outside it (U+1F600, say) the source keeps only the high surrogate, so different such characters share one suit in the source and stay distinct in the model: A, K, Q, J and T with the suits U+1F600 to U+1F604 are a Royal Flush in the source and a Straight here.
- The thrown "Duplicate cards" error and HighCard's failure on an empty list (it reads `cards[0]`) are both modelled as results, `Failure(DuplicateCards)` and `Failure(NoCards)`.
- Hands.FirstSolved: requires a non-empty pool; `Classify` handles the empty list before calling it.
- In-place sorts (`Card.sort` on the pool, on a suit's cards and in `getGaps`) are modelled as the function `SortByRank` on values, not as updates to a shared array.
- The card objects that `getCardsForFlush` sorts and `nextHighest` filters are shared between the hand and its indices. The model works on card values, so this aliasing is not modelled.
- `nextHighest` excludes cards by object identity; the model excludes by value. The two agree because every excluded list is made of whole rank buckets: a card equal in value to an excluded card has the same rank, so it lies in the same bucket and is excluded by identity as well.
- The kicker branches of Flush and Straight that fill up to five cards cannot run in the standard game, where `sfQualify` equals `cardsInHand`, and are not modelled.
- The nested `new Straight(possibleStraight, game)` inside StraightFlush is modelled by `Hands.StraightOfSuit`. It sorts the suit's cards and runs the straight scan on them; no second Hand object is created.
- `winners` works on value snapshots of hands (strength rank plus chosen cards), which is all that `compare` reads.
- Ranking.CompareTransitive: stated only for hands with at least five cards. When a hand is shorter, `compare` skips the positions it lacks, and transitivity can then fail. An evaluator chooses fewer than five cards only from a pool of fewer than five.
- Fields the source sets only in the constructor (`kind`, `rank`, `cardPool`, `suits`, `values`) are `const` fields of the class.
