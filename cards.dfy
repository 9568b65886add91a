/**
 * Cards: the face table, the parsing of a card string into face, suit and
 * rank, and the rank-descending order in which every card list is sorted.
 */
module Cards {
  import opened Seqs

  /** The 14-entry face table; a face's rank is its index in it ("1" is the low ace). */
  const Faces: seq<string> := ["1", "2", "3", "4", "5", "6", "7", "8", "9", "T", "J", "Q", "K", "A"]

  /** Rank of the ace, the highest entry of the face table. */
  const AceRank: int := 13

  /**
   * A card. `value` is the face symbol as written (at most one character),
   * `suit` the lower-cased suit symbol (at most one character), `rank` the
   * face's index in Faces, or -1 for a symbol the table does not hold.
   */
  datatype Card = Card(value: string, suit: string, rank: int)

  /** `values.indexOf(v)`: the first index of table holding v, or -1. */
  function IndexOf(table: seq<string>, v: string): (r: int)
    ensures -1 <= r < |table|
    ensures r == -1 <==> v !in table
    ensures r >= 0 ==> table[r] == v && forall k :: 0 <= k < r ==> table[k] != v
  {
    if table == [] then -1
    else if table[0] == v then 0
    else
      var k := IndexOf(table[1..], v);
      if k == -1 then -1 else k + 1
  }

  /** `toLowerCase` on one character; only the ASCII capitals change. */
  function LowerChar(c: char): char {
    if 'A' <= c <= 'Z' then (c as int + 32) as char else c
  }

  function Lower(s: string): (r: string)
    ensures |r| == |s|
  {
    seq(|s|, k requires 0 <= k < |s| => LowerChar(s[k]))
  }

  function Min(a: int, b: int): int { if a < b then a else b }

  /** `new Card(str)`: the face is the first character, the suit the lower-cased second one. */
  function Parse(s: string): (c: Card)
    ensures c.value == (if |s| == 0 then "" else [s[0]])
    ensures c.suit == (if |s| < 2 then "" else [LowerChar(s[1])])
    ensures c.rank == -1 <==> c.value !in Faces
    ensures c.rank >= 0 ==> c.rank <= AceRank && Faces[c.rank] == c.value
  {
    var value := s[..Min(1, |s|)];
    Card(value, Lower(s[Min(1, |s|)..Min(2, |s|)]), IndexOf(Faces, value))
  }

  /** A card string whose first character is one of the 14 faces. */
  predicate IsFace(s: string) {
    |s| >= 1 && [s[0]] in Faces
  }

  /** A card whose rank is the position of its face in the table (no wild card). */
  predicate Ranked(c: Card) {
    0 <= c.rank <= AceRank && Faces[c.rank] == c.value
  }

  lemma FacesDistinct()
    ensures forall i, j :: 0 <= i < j < |Faces| ==> Faces[i] != Faces[j]
  {
  }

  /** Two ranked cards show the same face exactly when they have the same rank. */
  lemma SameFaceSameRank(a: Card, b: Card)
    requires Ranked(a) && Ranked(b)
    ensures a.value == b.value <==> a.rank == b.rank
  {
    FacesDistinct();
  }

  /** The rank of a parsed card is the position of its face in the table: "1" = 0, "2" = 1, ..., "A" = 13. */
  lemma ParseRankIsTablePosition(s: string, k: int)
    requires 0 <= k < |Faces| && |s| >= 1 && [s[0]] == Faces[k]
    ensures Parse(s).rank == k && Ranked(Parse(s))
  {
    FacesDistinct();
    var r := Parse(s).rank;
    assert Faces[k] in Faces;
    assert r >= 0 && Faces[r] == Faces[k];
  }

  /** `Card.sort`: -1 when a ranks above b, 1 when below, 0 on equal ranks. */
  function Order(a: Card, b: Card): int {
    if a.rank > b.rank then -1 else if a.rank < b.rank then 1 else 0
  }

  /**
   * `Card.sort` is a consistent comparator: swapping the cards flips its sign,
   * it puts a before b exactly when a ranks higher, and calls them equal
   * exactly on equal ranks.
   */
  lemma OrderSpec(a: Card, b: Card)
    ensures Order(b, a) == -Order(a, b)
    ensures Order(a, b) < 0 <==> a.rank > b.rank
    ensures Order(a, b) == 0 <==> a.rank == b.rank
  {
  }

  /** Non-increasing in rank. */
  predicate SortedDesc(s: seq<Card>) {
    forall i, j :: 0 <= i < j < |s| ==> s[i].rank >= s[j].rank
  }

  /** Inserts x before the first card that does not rank above it (a stable insertion). */
  function Insert(x: Card, s: seq<Card>): (r: seq<Card>)
    requires SortedDesc(s)
    ensures |r| == |s| + 1
    ensures SortedDesc(r)
    ensures multiset(r) == multiset(s) + multiset{x}
  {
    if s == [] || Order(x, s[0]) <= 0 then
      SortedCons(x, s);
      [x] + s
    else
      var t := Insert(x, s[1..]);
      assert s == [s[0]] + s[1..];
      RanksAtMost(t, s[1..] + [x], s[0].rank);
      SortedCons(s[0], t);
      [s[0]] + t
  }

  /** A card ranking at least as high as every card of a sorted list can go in front of it. */
  lemma SortedCons(h: Card, t: seq<Card>)
    requires SortedDesc(t)
    requires t != [] ==> t[0].rank <= h.rank
    ensures SortedDesc([h] + t)
  {
  }

  /** A rearrangement of cards that all rank at most top also ranks at most top. */
  lemma RanksAtMost(t: seq<Card>, u: seq<Card>, top: int)
    requires multiset(t) == multiset(u)
    requires forall k :: 0 <= k < |u| ==> u[k].rank <= top
    ensures forall k :: 0 <= k < |t| ==> t[k].rank <= top
  {
    forall k | 0 <= k < |t| ensures t[k].rank <= top {
      assert t[k] in multiset(u);
      var j :| 0 <= j < |u| && u[j] == t[k];
    }
  }

  /** `cards.sort(Card.sort)`: JavaScript's sort is stable, so this is a stable sort by rank, descending. */
  function SortByRank(s: seq<Card>): (r: seq<Card>)
    ensures |r| == |s|
    ensures SortedDesc(r)
    ensures multiset(r) == multiset(s)
  {
    if s == [] then []
    else
      assert s == [s[0]] + s[1..];
      Insert(s[0], SortByRank(s[1..]))
  }

  /** Sorting a list that is already rank-descending leaves it as it is. */
  lemma {:induction false} SortSortedIsIdentity(s: seq<Card>)
    requires SortedDesc(s)
    ensures SortByRank(s) == s
  {
    if s != [] {
      SortSortedIsIdentity(s[1..]);
    }
  }

  /** The cards of rank r, in list order. */
  function OfRank(s: seq<Card>, r: int): seq<Card> {
    Filter(s, (c: Card) => c.rank == r)
  }

  lemma {:induction false} InsertKeepsRankOrder(x: Card, s: seq<Card>, r: int)
    requires SortedDesc(s)
    ensures OfRank(Insert(x, s), r) == (if x.rank == r then [x] else []) + OfRank(s, r)
  {
    var p := (c: Card) => c.rank == r;
    if s == [] || Order(x, s[0]) <= 0 {
      assert Insert(x, s) == [x] + s;
      FilterCons(x, s, p);
    } else {
      var t := Insert(x, s[1..]);
      assert Insert(x, s) == [s[0]] + t;
      assert s == [s[0]] + s[1..];
      InsertKeepsRankOrder(x, s[1..], r);
      FilterCons(s[0], t, p);
      FilterCons(s[0], s[1..], p);
      if x.rank == r {
        assert !p(s[0]);
        assert OfRank(Insert(x, s), r) == [x] + OfRank(s[1..], r);
      } else {
        assert OfRank(t, r) == OfRank(s[1..], r);
      }
    }
  }

  /** The sort is stable: the cards of each rank keep their input order. */
  lemma {:induction false} SortIsStable(s: seq<Card>, r: int)
    ensures OfRank(SortByRank(s), r) == OfRank(s, r)
  {
    if s != [] {
      SortIsStable(s[1..], r);
      InsertKeepsRankOrder(s[0], SortByRank(s[1..]), r);
      FilterConcat([s[0]], s[1..], (c: Card) => c.rank == r);
      assert s == [s[0]] + s[1..];
    }
  }
}
