/**
 * The indices a Hand builds over its sorted card pool: the cards by suit
 * (an association list in order of first appearance, and the order in which
 * JavaScript's for..in visits its keys), the cards by rank (the sparse
 * `this.values` array, reversed so that index 0 is the highest rank
 * present), and the helpers the evaluators share.
 */
module Indices {
  import opened Seqs
  import opened Cards

  predicate AllRanked(s: seq<Card>) {
    forall c :: c in s ==> Ranked(c)
  }

  /** One key of `this.suits` with the cards pushed under it. */
  datatype SuitEntry = SuitEntry(suit: string, cards: seq<Card>)

  /** The cards of suit s, in list order. */
  function OfSuit(s: seq<Card>, suit: string): seq<Card> {
    Filter(s, (c: Card) => c.suit == suit)
  }

  /** Position of the entry keyed by suit, or the list's length when there is none. */
  function SlotOf(suits: seq<SuitEntry>, suit: string): (i: nat)
    ensures i <= |suits|
    ensures i < |suits| ==> suits[i].suit == suit
    ensures forall j :: 0 <= j < i ==> suits[j].suit != suit
  {
    FirstWhere(suits, (e: SuitEntry) => e.suit == suit)
  }

  /** `(this.suits[c.suit] || (this.suits[c.suit] = [])).push(c)`. */
  function AddToSuit(suits: seq<SuitEntry>, c: Card): seq<SuitEntry> {
    var k := SlotOf(suits, c.suit);
    if k == |suits| then suits + [SuitEntry(c.suit, [c])]
    else suits[k := SuitEntry(c.suit, suits[k].cards + [c])]
  }

  /** The suit index of a pool: every card pushed under its suit, in pool order. */
  function SuitIndex(pool: seq<Card>): seq<SuitEntry> {
    if pool == [] then []
    else AddToSuit(SuitIndex(pool[..|pool| - 1]), pool[|pool| - 1])
  }

  /**
   * suits indexes pool: its keys are distinct, each entry holds exactly the
   * pool's cards of its suit, in pool order, and every suit of the pool has an entry.
   */
  ghost predicate IndexesSuits(suits: seq<SuitEntry>, pool: seq<Card>) {
    && (forall i, j :: 0 <= i < j < |suits| ==> suits[i].suit != suits[j].suit)
    && (forall i :: 0 <= i < |suits| ==> suits[i].cards == OfSuit(pool, suits[i].suit))
    && (forall c :: c in pool ==> SlotOf(suits, c.suit) < |suits|)
  }

  lemma AddToSuitKeepsKeysDistinct(suits: seq<SuitEntry>, c: Card)
    requires forall i, j :: 0 <= i < j < |suits| ==> suits[i].suit != suits[j].suit
    ensures forall i, j :: 0 <= i < j < |AddToSuit(suits, c)| ==> AddToSuit(suits, c)[i].suit != AddToSuit(suits, c)[j].suit
  {
  }

  lemma AddToSuitKeepsEntries(suits: seq<SuitEntry>, pool: seq<Card>, c: Card)
    requires IndexesSuits(suits, pool)
    ensures forall i :: 0 <= i < |AddToSuit(suits, c)| ==>
      AddToSuit(suits, c)[i].cards == OfSuit(pool + [c], AddToSuit(suits, c)[i].suit)
  {
    var next := AddToSuit(suits, c);
    forall i | 0 <= i < |next|
      ensures next[i].cards == OfSuit(pool + [c], next[i].suit)
    {
      OfSuitSnoc(pool, c, next[i].suit);
      if i == |suits| {
        NewSuitIsAbsent(suits, pool, c.suit);
      }
    }
  }

  /** Appending a card adds it to its own suit's cards and to no other. */
  lemma OfSuitSnoc(pool: seq<Card>, c: Card, suit: string)
    ensures OfSuit(pool + [c], suit) == OfSuit(pool, suit) + (if c.suit == suit then [c] else [])
  {
    FilterSnoc(pool, c, (d: Card) => d.suit == suit);
  }

  /** A suit without an entry has no cards in the pool. */
  lemma NewSuitIsAbsent(suits: seq<SuitEntry>, pool: seq<Card>, suit: string)
    requires IndexesSuits(suits, pool) && SlotOf(suits, suit) == |suits|
    ensures OfSuit(pool, suit) == []
  {
    FilterNone(pool, (d: Card) => d.suit == suit);
  }


  lemma AddToSuitCoversPool(suits: seq<SuitEntry>, pool: seq<Card>, c: Card)
    requires IndexesSuits(suits, pool)
    ensures forall d :: d in pool + [c] ==> SlotOf(AddToSuit(suits, c), d.suit) < |AddToSuit(suits, c)|
  {
    var next := AddToSuit(suits, c);
    forall d | d in pool + [c]
      ensures SlotOf(next, d.suit) < |next|
    {
      if d in pool {
        var m := SlotOf(suits, d.suit);
        assert next[m].suit == d.suit;
      } else {
        var m := SlotOf(suits, c.suit);
        assert next[m].suit == d.suit;
      }
    }
  }

  /** The suit index of any pool indexes it (see IndexesSuits). */
  lemma {:induction false} SuitIndexSpec(pool: seq<Card>)
    ensures IndexesSuits(SuitIndex(pool), pool)
  {
    if pool != [] {
      var n := |pool| - 1;
      assert pool == pool[..n] + [pool[n]];
      SuitIndexSpec(pool[..n]);
      AddToSuitKeepsKeysDistinct(SuitIndex(pool[..n]), pool[n]);
      AddToSuitKeepsEntries(SuitIndex(pool[..n]), pool[..n], pool[n]);
      AddToSuitCoversPool(SuitIndex(pool[..n]), pool[..n], pool[n]);
    }
  }

  // ------------------------------------------------- the order of the suits

  /** The position of the first card of suit `suit`, or the pool's length when there is none. */
  function FirstOfSuit(pool: seq<Card>, suit: string): (i: nat)
    ensures i <= |pool|
    ensures i < |pool| ==> pool[i].suit == suit
    ensures forall j :: 0 <= j < i ==> pool[j].suit != suit
  {
    FirstWhere(pool, (c: Card) => c.suit == suit)
  }

  /** A position holding the suit with none of it before is FirstOfSuit. */
  lemma FirstOfSuitIs(pool: seq<Card>, suit: string, i: nat)
    requires i <= |pool|
    requires i < |pool| ==> pool[i].suit == suit
    requires forall j :: 0 <= j < i ==> pool[j].suit != suit
    ensures FirstOfSuit(pool, suit) == i
  {
  }

  /** A card appended to the pool moves no first appearance that is already in the pool. */
  lemma FirstOfSuitSnoc(pool: seq<Card>, c: Card, suit: string)
    requires FirstOfSuit(pool, suit) < |pool| || c.suit == suit
    ensures FirstOfSuit(pool + [c], suit) == FirstOfSuit(pool, suit)
  {
    var f := FirstOfSuit(pool, suit);
    var q := pool + [c];
    assert forall j :: 0 <= j < f ==> q[j] == pool[j];
    FirstOfSuitIs(q, suit, f);
  }

  /** Every key of suits first appears in pool, and earlier keys first appear earlier. */
  ghost predicate InFirstAppearanceOrder(suits: seq<SuitEntry>, pool: seq<Card>) {
    && (forall i :: 0 <= i < |suits| ==> FirstOfSuit(pool, suits[i].suit) < |pool|)
    && (forall i, j :: 0 <= i < j < |suits| ==> FirstOfSuit(pool, suits[i].suit) < FirstOfSuit(pool, suits[j].suit))
  }

  /** A suit without an entry first appears in the pool with the card appended. */
  lemma FirstOfNewSuit(suits: seq<SuitEntry>, pool: seq<Card>, c: Card)
    requires forall d :: d in pool ==> SlotOf(suits, d.suit) < |suits|
    requires SlotOf(suits, c.suit) == |suits|
    ensures FirstOfSuit(pool + [c], c.suit) == |pool|
  {
    forall j | 0 <= j < |pool| ensures pool[j].suit != c.suit {
      assert pool[j] in pool;
    }
    FirstOfSuitIs(pool, c.suit, |pool|);
    FirstOfSuitSnoc(pool, c, c.suit);
  }

  /** Appending a card moves the first appearance of no key already in the pool. */
  lemma FirstsUnmoved(suits: seq<SuitEntry>, pool: seq<Card>, c: Card)
    requires forall i :: 0 <= i < |suits| ==> FirstOfSuit(pool, suits[i].suit) < |pool|
    ensures forall i :: 0 <= i < |suits| ==> FirstOfSuit(pool + [c], suits[i].suit) == FirstOfSuit(pool, suits[i].suit)
  {
    forall i | 0 <= i < |suits| ensures FirstOfSuit(pool + [c], suits[i].suit) == FirstOfSuit(pool, suits[i].suit) {
      FirstOfSuitSnoc(pool, c, suits[i].suit);
    }
  }

  /** A push under an existing key leaves the keys as they were, so their order holds. */
  lemma SameKeysKeepOrder(suits: seq<SuitEntry>, next: seq<SuitEntry>, pool: seq<Card>, c: Card)
    requires InFirstAppearanceOrder(suits, pool)
    requires |next| == |suits| && forall i :: 0 <= i < |suits| ==> next[i].suit == suits[i].suit
    ensures InFirstAppearanceOrder(next, pool + [c])
  {
    FirstsUnmoved(suits, pool, c);
  }

  /** A new key goes last, and its suit first appears at the appended card, after every other key's. */
  lemma NewKeyKeepsOrder(suits: seq<SuitEntry>, pool: seq<Card>, c: Card)
    requires InFirstAppearanceOrder(suits, pool)
    requires FirstOfSuit(pool + [c], c.suit) == |pool|
    ensures InFirstAppearanceOrder(suits + [SuitEntry(c.suit, [c])], pool + [c])
  {
    FirstsUnmoved(suits, pool, c);
    var next := suits + [SuitEntry(c.suit, [c])];
    assert forall i :: 0 <= i < |suits| ==> next[i] == suits[i];
  }

  /** Adding a card keeps the keys in order of first appearance. */
  lemma AddToSuitKeepsOrder(suits: seq<SuitEntry>, pool: seq<Card>, c: Card)
    requires IndexesSuits(suits, pool) && InFirstAppearanceOrder(suits, pool)
    ensures InFirstAppearanceOrder(AddToSuit(suits, c), pool + [c])
  {
    if SlotOf(suits, c.suit) == |suits| {
      FirstOfNewSuit(suits, pool, c);
      NewKeyKeepsOrder(suits, pool, c);
    } else {
      SameKeysKeepOrder(suits, AddToSuit(suits, c), pool, c);
    }
  }

  /**
   * The keys of `this.suits` are stored in order of first appearance in the
   * pool: every key occurs in the pool, and an earlier key first occurs earlier.
   */
  lemma {:induction false} SuitIndexOrder(pool: seq<Card>)
    ensures InFirstAppearanceOrder(SuitIndex(pool), pool)
  {
    if pool != [] {
      var n := |pool| - 1;
      assert pool == pool[..n] + [pool[n]];
      SuitIndexOrder(pool[..n]);
      SuitIndexSpec(pool[..n]);
      AddToSuitKeepsOrder(SuitIndex(pool[..n]), pool[..n], pool[n]);
    }
  }

  /** A key JavaScript treats as an array index; a suit has at most one character, so a decimal digit. */
  predicate IsIndexKey(key: string) {
    |key| == 1 && '0' <= key[0] <= '9'
  }

  /** The value of an array-index key. */
  function DigitOf(key: string): (d: int)
    requires IsIndexKey(key)
    ensures 0 <= d < 10
  {
    key[0] as int - '0' as int
  }

  /** Whether entry e is keyed by the digit d. */
  predicate KeyedBy(e: SuitEntry, d: nat) {
    IsIndexKey(e.suit) && DigitOf(e.suit) == d
  }

  /** The entries keyed by the digits d, d + 1, ..., 9, in that order. */
  function DigitEntries(suits: seq<SuitEntry>, d: nat): seq<SuitEntry>
    decreases 10 - d
  {
    if d >= 10 then []
    else Filter(suits, (e: SuitEntry) => KeyedBy(e, d)) + DigitEntries(suits, d + 1)
  }

  /**
   * The order in which `for (let suit in this.suits)` visits the keys: the
   * keys that are array indices first, in ascending order, then the others
   * in insertion order.
   */
  function ForInOrder(suits: seq<SuitEntry>): seq<SuitEntry> {
    DigitEntries(suits, 0) + Filter(suits, (e: SuitEntry) => !IsIndexKey(e.suit))
  }

  /** The suit entries of a pool in the order the evaluators visit them. */
  function SuitOrder(pool: seq<Card>): seq<SuitEntry> {
    ForInOrder(SuitIndex(pool))
  }

  lemma SameDigitSameKey(a: string, b: string)
    requires IsIndexKey(a) && IsIndexKey(b) && DigitOf(a) == DigitOf(b)
    ensures a == b
  {
    assert a == [a[0]] && b == [b[0]];
  }

  /** With distinct keys, at most one entry is keyed by a given digit. */
  lemma OneEntryPerDigit(suits: seq<SuitEntry>, d: nat)
    requires forall i, j :: 0 <= i < j < |suits| ==> suits[i].suit != suits[j].suit
    ensures |Filter(suits, (e: SuitEntry) => KeyedBy(e, d))| <= 1
  {
    var f := Filter(suits, (e: SuitEntry) => KeyedBy(e, d));
    FilterPairwise(suits, (e: SuitEntry) => KeyedBy(e, d), (a: SuitEntry, b: SuitEntry) => a.suit != b.suit);
    if |f| >= 2 {
      assert f[0] in f && f[1] in f;
      SameDigitSameKey(f[0].suit, f[1].suit);
    }
  }

  /** The digit entries from d on are the entries keyed by a digit at least d, each once, in ascending order. */
  lemma {:induction false} DigitEntriesSpec(suits: seq<SuitEntry>, d: nat)
    requires forall i, j :: 0 <= i < j < |suits| ==> suits[i].suit != suits[j].suit
    ensures var r := DigitEntries(suits, d);
      && (forall e :: e in r <==> e in suits && IsIndexKey(e.suit) && DigitOf(e.suit) >= d)
      && (forall i, j :: 0 <= i < j < |r| ==> IsIndexKey(r[i].suit) && IsIndexKey(r[j].suit) && DigitOf(r[i].suit) < DigitOf(r[j].suit))
    decreases 10 - d
  {
    if d < 10 {
      var r := DigitEntries(suits, d);
      var f := Filter(suits, (e: SuitEntry) => KeyedBy(e, d));
      var rest := DigitEntries(suits, d + 1);
      DigitEntriesSpec(suits, d + 1);
      OneEntryPerDigit(suits, d);
      assert r == f + rest;
      forall i, j | 0 <= i < j < |r|
        ensures IsIndexKey(r[i].suit) && IsIndexKey(r[j].suit) && DigitOf(r[i].suit) < DigitOf(r[j].suit)
      {
        assert r[j] == rest[j - |f|] && r[j] in rest;
        if i < |f| {
          assert r[i] in f;
        } else {
          assert r[i] == rest[i - |f|];
        }
      }
    }
  }

  /**
   * `for..in` over a table with distinct keys visits each entry once: the
   * array-index keys first, in ascending order, then the others.
   */
  lemma ForInOrderSpec(suits: seq<SuitEntry>)
    requires forall i, j :: 0 <= i < j < |suits| ==> suits[i].suit != suits[j].suit
    ensures var r := ForInOrder(suits);
      && (forall e :: e in r <==> e in suits)
      && (forall i, j :: 0 <= i < j < |r| ==> r[i].suit != r[j].suit)
      && (forall i, j :: 0 <= i < j < |r| && IsIndexKey(r[j].suit) ==> IsIndexKey(r[i].suit) && DigitOf(r[i].suit) < DigitOf(r[j].suit))
  {
    var r := ForInOrder(suits);
    var ds := DigitEntries(suits, 0);
    var ns := Filter(suits, (e: SuitEntry) => !IsIndexKey(e.suit));
    DigitEntriesSpec(suits, 0);
    FilterPairwise(suits, (e: SuitEntry) => !IsIndexKey(e.suit), (a: SuitEntry, b: SuitEntry) => a.suit != b.suit);
    forall i, j | 0 <= i < j < |r|
      ensures r[i].suit != r[j].suit
      ensures IsIndexKey(r[j].suit) ==> IsIndexKey(r[i].suit) && DigitOf(r[i].suit) < DigitOf(r[j].suit)
    {
      if j < |ds| {
        assert r[i] == ds[i] && r[j] == ds[j];
      } else if i < |ds| {
        assert r[i] == ds[i] && r[i] in ds;
        assert r[j] == ns[j - |ds|] && r[j] in ns;
      } else {
        assert r[i] == ns[i - |ds|] && r[j] == ns[j - |ds|];
        assert r[j] in ns;
      }
    }
  }

  /** After the digit keys, `for..in` keeps the insertion order of the other keys: a relation between earlier and later entries still holds. */
  lemma ForInOrderKeepsInsertionOrder(suits: seq<SuitEntry>, R: (SuitEntry, SuitEntry) -> bool)
    requires forall i, j :: 0 <= i < j < |suits| ==> R(suits[i], suits[j])
    ensures var r := ForInOrder(suits);
      forall i, j :: 0 <= i < j < |r| && !IsIndexKey(r[i].suit) ==> !IsIndexKey(r[j].suit) && R(r[i], r[j])
  {
    var r := ForInOrder(suits);
    var ds := DigitEntries(suits, 0);
    var ns := Filter(suits, (e: SuitEntry) => !IsIndexKey(e.suit));
    FilterPairwise(suits, (e: SuitEntry) => !IsIndexKey(e.suit), R);
    DigitEntriesIndexKeys(suits, 0);
    forall k | 0 <= k < |ds| ensures IsIndexKey(r[k].suit) {
      assert r[k] == ds[k] && ds[k] in ds;
    }
    forall i, j | 0 <= i < j < |r| && !IsIndexKey(r[i].suit)
      ensures !IsIndexKey(r[j].suit) && R(r[i], r[j])
    {
      assert r[i] == ns[i - |ds|] && r[j] == ns[j - |ds|];
      assert r[j] in ns;
    }
  }

  /** Every entry among the digit entries is keyed by a digit. */
  lemma {:induction false} DigitEntriesIndexKeys(suits: seq<SuitEntry>, d: nat)
    ensures forall e :: e in DigitEntries(suits, d) ==> IsIndexKey(e.suit)
    decreases 10 - d
  {
    if d < 10 {
      DigitEntriesIndexKeys(suits, d + 1);
    }
  }

  /** Each entry visited holds its suit's cards of the pool, and every suit of the pool is visited. */
  lemma SuitOrderCovers(pool: seq<Card>)
    ensures var r := SuitOrder(pool);
      && (forall i :: 0 <= i < |r| ==> r[i].cards == OfSuit(pool, r[i].suit) && FirstOfSuit(pool, r[i].suit) < |pool|)
      && (forall c :: c in pool ==> exists i :: 0 <= i < |r| && r[i].suit == c.suit)
  {
    var s := SuitIndex(pool);
    var r := SuitOrder(pool);
    SuitIndexSpec(pool);
    SuitIndexOrder(pool);
    ForInOrderSpec(s);
    forall i | 0 <= i < |r| ensures r[i].cards == OfSuit(pool, r[i].suit) && FirstOfSuit(pool, r[i].suit) < |pool| {
      assert r[i] in s;
    }
    forall c | c in pool ensures exists i :: 0 <= i < |r| && r[i].suit == c.suit {
      var m := SlotOf(s, c.suit);
      assert s[m] in r;
    }
  }

  /** The suits other than digits are visited in order of first appearance. */
  lemma SuitOrderFollowsPool(pool: seq<Card>)
    ensures var r := SuitOrder(pool);
      forall i, j :: 0 <= i < j < |r| && !IsIndexKey(r[i].suit) ==>
        !IsIndexKey(r[j].suit) && FirstOfSuit(pool, r[i].suit) < FirstOfSuit(pool, r[j].suit)
  {
    var s := SuitIndex(pool);
    SuitIndexOrder(pool);
    var earlier := (a: SuitEntry, b: SuitEntry) => FirstOfSuit(pool, a.suit) < FirstOfSuit(pool, b.suit);
    assert forall i, j :: 0 <= i < j < |s| ==> earlier(s[i], s[j]);
    ForInOrderKeepsInsertionOrder(s, earlier);
  }

  /**
   * The suits of a pool in the order the evaluators visit them: each suit of
   * the pool exactly once, with its cards in pool order; digit suits first,
   * ascending; then the other suits in order of first appearance.
   */
  lemma SuitOrderSpec(pool: seq<Card>)
    ensures var r := SuitOrder(pool);
      && (forall i :: 0 <= i < |r| ==> r[i].cards == OfSuit(pool, r[i].suit) && FirstOfSuit(pool, r[i].suit) < |pool|)
      && (forall c :: c in pool ==> exists i :: 0 <= i < |r| && r[i].suit == c.suit)
      && (forall i, j :: 0 <= i < j < |r| ==> r[i].suit != r[j].suit)
      && (forall i, j :: 0 <= i < j < |r| && IsIndexKey(r[j].suit) ==> IsIndexKey(r[i].suit) && DigitOf(r[i].suit) < DigitOf(r[j].suit))
      && (forall i, j :: 0 <= i < j < |r| && !IsIndexKey(r[i].suit) ==>
            !IsIndexKey(r[j].suit) && FirstOfSuit(pool, r[i].suit) < FirstOfSuit(pool, r[j].suit))
  {
    SuitIndexSpec(pool);
    ForInOrderSpec(SuitIndex(pool));
    SuitOrderCovers(pool);
    SuitOrderFollowsPool(pool);
  }

  /** One past the highest rank in the pool (0 for an empty pool): the length of `this.values`. */
  function Span(pool: seq<Card>): (r: nat)
    requires AllRanked(pool)
    ensures r == 0 <==> pool == []
  {
    if pool == [] then 0
    else
      var front := pool[..|pool| - 1];
      assert pool == front + [pool[|pool| - 1]];
      assert Ranked(pool[|pool| - 1]);
      var prev := Span(front);
      var top := pool[|pool| - 1].rank + 1;
      if top > prev then top else prev
  }

  /** Every card ranks below the span, and the top slot of a non-empty pool holds a card. */
  lemma {:induction false} SpanBounds(pool: seq<Card>)
    requires AllRanked(pool)
    ensures forall c :: c in pool ==> c.rank < Span(pool)
    ensures Span(pool) > 0 ==> exists c :: c in pool && c.rank == Span(pool) - 1
  {
    if pool != [] {
      var front := pool[..|pool| - 1];
      assert pool == front + [pool[|pool| - 1]];
      SpanBounds(front);
    }
  }

  /**
   * v is `this.values` before `reverse()` for pool: one slot per rank up to
   * the highest present, slot r holding the pool's cards of rank r in pool
   * order (a hole is an empty slot).
   */
  ghost predicate IndexesRanks(v: seq<seq<Card>>, pool: seq<Card>)
    requires AllRanked(pool)
  {
    |v| == Span(pool) && forall r :: 0 <= r < |v| ==> v[r] == OfRank(pool, r)
  }

  /**
   * `(this.values[c.rank] || (this.values[c.rank] = [])).push(c)`: the array
   * grows to cover c's rank, leaving holes below, and c joins its slot.
   */
  lemma IndexesRanksStep(v: seq<seq<Card>>, pre: seq<Card>, c: Card)
    requires AllRanked(pre + [c]) && AllRanked(pre) && IndexesRanks(v, pre)
    ensures var w := if c.rank >= |v| then v + seq(c.rank + 1 - |v|, _ => []) else v;
      0 <= c.rank < |w| && IndexesRanks(w[c.rank := w[c.rank] + [c]], pre + [c])
  {
    assert Ranked(c);
    var w := if c.rank >= |v| then v + seq(c.rank + 1 - |v|, _ => []) else v;
    var u := w[c.rank := w[c.rank] + [c]];
    SpanSnoc(pre, c);
    forall r | 0 <= r < |u| ensures u[r] == OfRank(pre + [c], r) {
      OfRankSnoc(pre, c, r);
      if r >= |v| {
        OfRankAboveSpan(pre, r);
      }
    }
  }

  /** Appending a card stretches the span to cover its rank. */
  lemma SpanSnoc(pre: seq<Card>, c: Card)
    requires AllRanked(pre + [c])
    ensures Span(pre + [c]) == if c.rank + 1 > Span(pre) then c.rank + 1 else Span(pre)
  {
    var pool := pre + [c];
    assert pool[..|pool| - 1] == pre;
  }

  /** Appending a card adds it to its own rank's cards and to no other. */
  lemma OfRankSnoc(pre: seq<Card>, c: Card, r: int)
    ensures OfRank(pre + [c], r) == OfRank(pre, r) + (if c.rank == r then [c] else [])
  {
    FilterSnoc(pre, c, (d: Card) => d.rank == r);
  }

  /** No card ranks at or above the span. */
  lemma OfRankAboveSpan(pool: seq<Card>, r: int)
    requires AllRanked(pool) && r >= Span(pool)
    ensures OfRank(pool, r) == []
  {
    SpanBounds(pool);
    FilterNone(pool, (d: Card) => d.rank == r);
  }


  /** Reversing the rank slots gives the rank index. */
  lemma ReversedRanksAreRankIndex(v: seq<seq<Card>>, pool: seq<Card>)
    requires AllRanked(pool) && IndexesRanks(v, pool)
    ensures Reverse(v) == RankIndex(pool)
  {
  }

  /** `this.values` after `reverse()`: bucket k holds the cards of rank Span - 1 - k; a hole is an empty bucket. */
  function RankIndex(pool: seq<Card>): (v: seq<seq<Card>>)
    requires AllRanked(pool)
    ensures |v| == Span(pool)
  {
    seq(Span(pool), k requires 0 <= k < Span(pool) => OfRank(pool, Span(pool) - 1 - k))
  }

  /** The rank the cards of bucket k of the rank index have. */
  function BucketRank(pool: seq<Card>, k: int): int
    requires AllRanked(pool)
  {
    Span(pool) - 1 - k
  }

  /** Every card of a bucket has the bucket's rank, and every pool card of that rank is in the bucket. */
  lemma BucketContents(pool: seq<Card>, k: nat)
    requires AllRanked(pool) && k < Span(pool)
    ensures forall c :: c in RankIndex(pool)[k] <==> c in pool && c.rank == BucketRank(pool, k)
  {
    assert RankIndex(pool)[k] == OfRank(pool, BucketRank(pool, k));
  }

  /** Bucket 0 is never a hole: it holds the highest rank present. */
  lemma FirstBucketHoldsTopRank(pool: seq<Card>)
    requires AllRanked(pool) && pool != []
    ensures RankIndex(pool)[0] != []
    ensures forall c :: c in pool ==> c.rank <= BucketRank(pool, 0)
  {
    SpanBounds(pool);
    assert Span(pool) > 0;
    var c :| c in pool && c.rank == Span(pool) - 1;
    BucketContents(pool, 0);
    assert c in RankIndex(pool)[0];
  }

  /** `nextHighest()` with no wild cards: the pool's cards not already chosen, in pool order. */
  function NextHighest(pool: seq<Card>, chosen: seq<Card>): (r: seq<Card>)
    ensures forall c :: c in r <==> c in pool && c !in chosen
  {
    Filter(pool, (c: Card) => c !in chosen)
  }

  /** `Hand.stripWilds`: the cards of rank -1 and the others, each in list order. */
  function StripWilds(cards: seq<Card>): (r: (seq<Card>, seq<Card>))
    ensures forall c :: c in r.0 <==> c in cards && c.rank == -1
    ensures forall c :: c in r.1 <==> c in cards && c.rank != -1
  {
    (Filter(cards, (c: Card) => c.rank == -1), Filter(cards, (c: Card) => c.rank != -1))
  }

  /** With no wild card in the pool, stripping wilds leaves the pool as it is. */
  lemma StripWildsOfRankedPool(cards: seq<Card>)
    requires AllRanked(cards)
    ensures StripWilds(cards).1 == cards && StripWilds(cards).0 == []
  {
    FilterAll(cards, (c: Card) => c.rank != -1);
    FilterNone(cards, (c: Card) => c.rank == -1);
  }

  /**
   * The kickers `nextHighest().slice(0, n)` takes from a sorted pool: cards
   * not chosen, rank-descending, and at least as high as every unchosen card
   * they leave out; fewer than n only when no unchosen card is left out.
   */
  lemma NextHighestKickers(pool: seq<Card>, chosen: seq<Card>, n: nat)
    requires SortedDesc(pool)
    ensures var k := Take(NextHighest(pool, chosen), n);
      && SortedDesc(k)
      && (forall x :: x in k ==> x in pool && x !in chosen)
      && (forall y :: y in pool && y !in chosen && y !in k ==> |k| == n && forall x :: x in k ==> y.rank <= x.rank)
  {
    var h := NextHighest(pool, chosen);
    var k := Take(h, n);
    FilterSorted(pool, (c: Card) => c !in chosen);
    forall y | y in pool && y !in chosen && y !in k
      ensures |k| == n && forall x :: x in k ==> y.rank <= x.rank
    {
      var m :| 0 <= m < |h| && h[m] == y;
      forall x | x in k ensures y.rank <= x.rank {
        var i :| 0 <= i < |k| && k[i] == x;
        assert h[i] == x;
      }
    }
  }

  /** `getCardsForFlush(suit, _)` with no wild cards: the suit's cards, sorted by rank. */
  function CardsForFlush(suits: seq<SuitEntry>, k: nat): seq<Card>
    requires k < |suits|
  {
    SortByRank(suits[k].cards)
  }

  /** Filtering keeps a list rank-descending. */
  lemma {:induction false} FilterSorted(s: seq<Card>, p: Card -> bool)
    requires SortedDesc(s)
    ensures SortedDesc(Filter(s, p))
  {
    if s != [] {
      FilterSorted(s[1..], p);
      var t := Filter(s[1..], p);
      forall k | 0 <= k < |t| ensures t[k].rank <= s[0].rank {
        assert t[k] in t;
        assert t[k] in s[1..];
      }
    }
  }

  /** On a sorted pool, the flush candidates of a suit are exactly that suit's cards, in pool order: the in-place sort changes nothing. */
  lemma CardsForFlushOfSortedPool(pool: seq<Card>, k: nat)
    requires SortedDesc(pool) && k < |SuitOrder(pool)|
    ensures CardsForFlush(SuitOrder(pool), k) == OfSuit(pool, SuitOrder(pool)[k].suit)
    ensures SortedDesc(CardsForFlush(SuitOrder(pool), k))
  {
    SuitOrderSpec(pool);
    FilterSorted(pool, (c: Card) => c.suit == SuitOrder(pool)[k].suit);
    SortSortedIsIdentity(SuitOrder(pool)[k].cards);
  }
}
