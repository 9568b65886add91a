/**
 * The rule set a hand is solved under. Hand.solve always uses the
 * "standard" game, so the model carries that one record as a constant.
 */
module Rules {

  import opened Seqs

  /** The evaluator classes: each one is a hand type with its own `solve`. */
  datatype Kind =
    | StraightFlush | RoyalFlush | FourOfAKind | FullHouse | Flush
    | Straight | ThreeOfAKind | TwoPair | OnePair | HighCard

  /**
   * A game's rules. The standard game has no wild value and no lowest
   * qualifying hand; those two fields are therefore not carried.
   */
  datatype Game = Game(
    descr: string,
    cardsInHand: nat,
    handValues: seq<Kind>,
    wildStatus: int,
    wheelStatus: int,
    sfQualify: nat,
    noKickers: bool)

  /** The evaluators of the standard game, strongest first. */
  const HandValues: seq<Kind> :=
    [StraightFlush, FourOfAKind, FullHouse, Flush, Straight, ThreeOfAKind, TwoPair, OnePair, HighCard]

  const Standard: Game := Game("standard", 5, HandValues, 1, 0, 5, false)

  /**
   * The settings of the standard game that decide which branches run: its
   * name turns on the duplicate check, a hand and a straight or flush are
   * five cards, kickers count, the wheel is not ranked second, and the table
   * lists each evaluator once and has no royal flush entry.
   */
  lemma StandardRules()
    ensures Standard.descr == "standard"
    ensures Standard.cardsInHand == Standard.sfQualify == 5
    ensures !Standard.noKickers && Standard.wheelStatus != 1
    ensures RoyalFlush !in Standard.handValues
    ensures forall i, j :: 0 <= i < j < |Standard.handValues| ==> Standard.handValues[i] != Standard.handValues[j]
  {
  }

  /** The position of k in the table, or the table's length when k is absent. */
  function PositionOf(table: seq<Kind>, k: Kind): (i: nat)
    ensures i <= |table|
    ensures i < |table| ==> table[i] == k
    ensures forall j :: 0 <= j < i ==> table[j] != k
  {
    FirstWhere(table, (x: Kind) => x == k)
  }

  /** A scan that stops at i, having passed only other kinds, found PositionOf. */
  lemma PositionOfIs(table: seq<Kind>, k: Kind, i: nat)
    requires i <= |table|
    requires i < |table| ==> table[i] == k
    requires forall j :: 0 <= j < i ==> table[j] != k
    ensures PositionOf(table, k) == i
  {
  }

  /**
   * `Hand.rank`: the number of evaluators minus the evaluator's position in
   * the standard table, so stronger is larger; the royal flush class is not
   * in the table, its position is the table's length and its strength 0.
   * `StrengthIsTablePosition` ties these values to the table.
   */
  function StrengthRank(k: Kind): (r: nat)
    ensures r <= |HandValues|
  {
    match k
    case StraightFlush => 9
    case FourOfAKind => 8
    case FullHouse => 7
    case Flush => 6
    case Straight => 5
    case ThreeOfAKind => 4
    case TwoPair => 3
    case OnePair => 2
    case HighCard => 1
    case RoyalFlush => 0
  }

  /** The strength of every kind is the table's length minus the kind's position in it. */
  lemma StrengthIsTablePosition(k: Kind)
    ensures StrengthRank(k) == |Standard.handValues| - PositionOf(Standard.handValues, k)
  {
    var i := 9 - StrengthRank(k);
    PositionOfIs(HandValues, k, i);
  }

  /** An evaluator earlier in the table is strictly stronger, and every evaluator in it is positive. */
  lemma StrengthFollowsTableOrder(i: nat, j: nat)
    requires i <= j < |HandValues|
    ensures StrengthRank(HandValues[i]) >= StrengthRank(HandValues[j]) > 0
    ensures i < j ==> StrengthRank(HandValues[i]) > StrengthRank(HandValues[j])
  {
  }
}
