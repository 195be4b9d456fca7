/** Hand ranking (`GamePlayHelpers.EvaluateBestHand`): a list of cards is
    ranked as `category * 100 + deciding value`, with a tie-break list, a
    hand name and a category label. */
module HandEvaluation {

  import opened Wrappers
  import opened Lists
  import opened Cards
  import opened ValueLists

  // ---------------------------------------------------------------------
  // Card values and suits

  /** The rank values of the cards, in card order. */
  function Values(cards: seq<Card>): (vs: seq<int>)
    ensures |vs| == |cards|
    ensures forall i :: 0 <= i < |cards| ==> vs[i] == cards[i].rank
    ensures forall v :: v in vs ==> 2 <= v <= 14
  {
    seq(|cards|, i requires 0 <= i < |cards| => cards[i].rank as int)
  }

  /** `cardValues`: the values, highest first. */
  function CardValues(cards: seq<Card>): (vs: seq<int>)
    ensures multiset(vs) == multiset(Values(cards))
    ensures |vs| == |cards|
    ensures Descending(vs)
  {
    SortDescending(Values(cards))
  }

  /** `distinctValues`: each value once, highest first. */
  function DistinctValues(cards: seq<Card>): (dv: seq<int>)
    ensures StrictlyDescending(dv)
    ensures forall v :: v in dv <==> v in Values(cards)
  {
    var vs := CardValues(cards);
    assert forall v :: v in vs <==> v in multiset(Values(cards));
    Distinct(vs)
  }

  /** How many of the cards have value `v`. */
  function Occurrences(cards: seq<Card>, v: int): nat
  {
    multiset(Values(cards))[v]
  }

  /** How many of the cards have suit `s`. */
  function SuitCount(cards: seq<Card>, s: Suit): (n: nat)
    ensures n <= |cards|
  {
    if cards == [] then 0
    else (if cards[0].suit == s then 1 else 0) + SuitCount(cards[1..], s)
  }

  /** The values of the cards of suit `s`, in card order. */
  function SuitValues(cards: seq<Card>, s: Suit): (vs: seq<int>)
    ensures |vs| == SuitCount(cards, s)
    ensures forall v :: v in vs ==> 2 <= v <= 14
    ensures forall i :: 0 <= i < |cards| && cards[i].suit == s ==> cards[i].rank as int in vs
    ensures forall v :: v in vs ==> exists i :: 0 <= i < |cards| && cards[i].suit == s && cards[i].rank == v
  {
    if cards == [] then []
    else
      var rest := SuitValues(cards[1..], s);
      assert forall i :: 1 <= i < |cards| ==> cards[i] == cards[1..][i - 1];
      (if cards[0].suit == s then [cards[0].rank as int] else []) + rest
  }

  /** The suit of the first suit group with at least five cards, looking at
      the cards from index `i` on (`GroupBy` keeps first-appearance order). */
  function FlushSuitFrom(cards: seq<Card>, i: nat): (r: Option<Suit>)
    decreases |cards| - i
    ensures r.Some? ==> SuitCount(cards, r.value) >= 5
    ensures r.None? ==> forall j :: i <= j < |cards| ==> SuitCount(cards, cards[j].suit) < 5
    ensures r.Some? ==> exists k :: i <= k < |cards| && cards[k].suit == r.value &&
                          forall j :: i <= j < k ==> SuitCount(cards, cards[j].suit) < 5
  {
    if i >= |cards| then None
    else if SuitCount(cards, cards[i].suit) >= 5 then Some(cards[i].suit)
    else FlushSuitFrom(cards, i + 1)
  }

  /** `suitGroups.First()`: the flush suit, if any suit has five cards. The
      groups keep first-appearance order, so it is the suit of the first
      card whose suit has five cards. */
  function FlushSuit(cards: seq<Card>): (r: Option<Suit>)
    ensures r.Some? ==> SuitCount(cards, r.value) >= 5
    ensures r.None? <==> forall s :: SuitCount(cards, s) < 5
    ensures r.Some? ==> exists k :: 0 <= k < |cards| && cards[k].suit == r.value &&
                          forall j :: 0 <= j < k ==> SuitCount(cards, cards[j].suit) < 5
  {
    var r := FlushSuitFrom(cards, 0);
    assert r.None? ==> forall s :: SuitCount(cards, s) < 5 by {
      if r.None? {
        forall s ensures SuitCount(cards, s) < 5 {
          SuitCountPositive(cards, s);
        }
      }
    }
    r
  }

  /** A suit with cards is the suit of some card. */
  lemma {:induction false} SuitCountPositive(cards: seq<Card>, s: Suit)
    ensures SuitCount(cards, s) > 0 ==> exists j :: 0 <= j < |cards| && cards[j].suit == s
  {
    if cards != [] && cards[0].suit != s {
      SuitCountPositive(cards[1..], s);
      if SuitCount(cards[1..], s) > 0 {
        var j :| 0 <= j < |cards[1..]| && cards[1..][j].suit == s;
        assert cards[j + 1].suit == s;
      }
    }
  }

  /** `flushCards`: the five highest values of the flush suit, highest first. */
  function FlushValues(cards: seq<Card>, s: Suit): (fc: seq<int>)
    requires SuitCount(cards, s) >= 5
    ensures |fc| == 5
    ensures Descending(fc)
    ensures forall v :: v in fc ==> 2 <= v <= 14
    ensures multiset(fc) <= multiset(SuitValues(cards, s))
    ensures forall v :: v in SuitValues(cards, s) ==> v <= fc[0]
    ensures forall v :: v in multiset(SuitValues(cards, s)) - multiset(fc) ==> v <= fc[4]
  {
    var sv := SuitValues(cards, s);
    var sorted := SortDescending(sv);
    TopOfDescending(sv, sorted);
    var fc := Take(sorted, 5);
    assert fc == sorted[..5];
    fc
  }

  /** The first five of a descending arrangement of `s` are its five
      highest values. */
  lemma TopOfDescending(s: seq<int>, sorted: seq<int>)
    requires multiset(sorted) == multiset(s) && Descending(sorted) && |sorted| >= 5
    ensures multiset(sorted[..5]) <= multiset(s)
    ensures forall v :: v in sorted[..5] ==> v in s
    ensures Descending(sorted[..5])
    ensures forall v :: v in s ==> v <= sorted[0]
    ensures forall v :: v in multiset(s) - multiset(sorted[..5]) ==> v <= sorted[4]
  {
    var top, rest := sorted[..5], sorted[5..];
    assert Descending(top) by {
      forall i, j | 0 <= i < j < 5 ensures top[i] >= top[j] {
        assert top[i] == sorted[i] && top[j] == sorted[j];
      }
    }
    assert multiset(s) == multiset(top) + multiset(rest) by {
      assert sorted == top + rest;
    }
    forall v | v in top ensures v in s {
      assert v in multiset(top);
      assert v in multiset(s);
    }
    forall v | v in s ensures v <= sorted[0] {
      assert v in multiset(sorted);
      var k :| 0 <= k < |sorted| && sorted[k] == v;
    }
    forall v | v in multiset(s) - multiset(top) ensures v <= sorted[4] {
      assert v in rest;
      var k :| 0 <= k < |rest| && rest[k] == v;
      assert sorted[5 + k] == v;
    }
  }

  // ---------------------------------------------------------------------
  // Straights

  /** The `for` loop over the distinct values, from index `i` on: the first
      value that is exactly four above the value four places later, or -1. */
  function ScanStraight(dv: seq<int>, i: nat): (r: int)
    decreases |dv| - i
    ensures r == -1 || r in dv
  {
    if i + 5 > |dv| then -1
    else if dv[i] - dv[i + 4] == 4 then dv[i]
    else ScanStraight(dv, i + 1)
  }

  /** Ace, five, four, three and two are all present. */
  predicate HasWheel(vs: seq<int>)
  {
    Ace as int in vs && 5 in vs && 4 in vs && 3 in vs && 2 in vs
  }

  /** `straightHigh` as written: the scan's result, overridden by 5 whenever
      the wheel A-2-3-4-5 is present. */
  function StraightHigh(dv: seq<int>): (sh: int)
    ensures sh == -1 || sh == 5 || sh in dv
  {
    if HasWheel(dv) then 5 else ScanStraight(dv, 0)
  }

  /** The loop of `EvaluateBestHand` that computes `straightHigh`, with its
      `break`, followed by the wheel override. */
  method FindStraightHigh(dv: seq<int>) returns (sh: int)
    ensures sh == StraightHigh(dv)
  {
    sh := -1;
    var i := 0;
    while i <= |dv| - 5
      invariant 0 <= i
      invariant sh == -1
      invariant ScanStraight(dv, 0) == ScanStraight(dv, i)
    {
      if dv[i] - dv[i + 4] == 4 {
        sh := dv[i];
        break;
      }
      i := i + 1;
    }
    if HasWheel(dv) {
      sh := 5;
    }
  }

  // ---------------------------------------------------------------------
  // Classification

  /** The hand name, with the card values it mentions; turning values into
      enumeration names is not part of this model. */
  datatype HandName =
    | RoyalFlush
    | StraightFlush(high: int)
    | FourOf(value: int)
    | FullHouse(trips: int, pair: int)
    | Flush(high: int)
    | Straight(high: int)
    | Three(value: int)
    | TwoPair(high: int, low: int)
    | OnePair(value: int)
    | HighCard(value: int)

  /** The category number of a name: High Card 1 up to Straight Flush 9. */
  function Category(name: HandName): (c: int)
    ensures 1 <= c <= 9
  {
    match name
    case RoyalFlush => 9
    case StraightFlush(_) => 9
    case FourOf(_) => 8
    case FullHouse(_, _) => 7
    case Flush(_) => 6
    case Straight(_) => 5
    case Three(_) => 4
    case TwoPair(_, _) => 3
    case OnePair(_) => 2
    case HighCard(_) => 1
  }

  /** The result tuple: rank, tie-break list, hand name and category label. */
  datatype Evaluation = Evaluation(rank: int, tie: seq<int>, name: HandName, handRank: string)

  /** The rank lies in its category's band of one hundred. */
  predicate InBand(e: Evaluation)
  {
    100 * Category(e.name) + 2 <= e.rank <= 100 * Category(e.name) + 14
  }

  /** `groups`: the values grouped, largest group first, ties broken by the
      higher value. */
  function HandGroups(cards: seq<Card>): (g: seq<Group>)
    ensures g == [] <==> cards == []
    ensures forall i :: 0 <= i < |g| ==> 2 <= g[i].key <= 14
    ensures GroupsOrdered(g)
    ensures forall i :: 0 <= i < |g| ==> g[i].key in Values(cards) && g[i].count == Occurrences(cards, g[i].key)
    ensures forall v :: v in Values(cards) ==> exists i :: 0 <= i < |g| && g[i].key == v
    ensures forall i, j :: 0 <= i < j < |g| ==> g[i].key != g[j].key
  {
    var vs := CardValues(cards);
    assert forall v :: v in vs <==> v in Values(cards) by {
      assert forall v :: v in vs <==> v in multiset(Values(cards));
    }
    var g := Groups(vs);
    assert cards != [] ==> g != [] by {
      if cards != [] {
        assert cards[0].rank as int in vs;
      }
    }
    g
  }

  /** The flush's five values, when there is a flush. */
  function FlushTop(cards: seq<Card>): (fc: Option<seq<int>>)
    ensures fc.Some? <==> FlushSuit(cards).Some?
    ensures fc.Some? ==> |fc.value| == 5 && 2 <= fc.value[0] <= 14
  {
    var flush := FlushSuit(cards);
    if flush.Some? then
      var fc := FlushValues(cards, flush.value);
      assert fc[0] in fc;
      Some(fc)
    else None
  }

  /** The decision chain of `EvaluateBestHand` once the straight is known:
      `sh` is the straight's high card and `sfHigh` the straight flush's,
      each -1 when there is none. An empty card list makes the source index
      an empty group list and throw: `None`. */
  function Classify(cards: seq<Card>, sh: int, sfHigh: int): (r: Option<Evaluation>)
    requires sh == -1 || 2 <= sh <= 14
    requires sfHigh == -1 || 2 <= sfHigh <= 14
    ensures r.None? <==> sfHigh == -1 && cards == []
    ensures r.Some? ==> InBand(r.value)
  {
    if sfHigh != -1 then
      Some(Evaluation(900 + sfHigh, [sfHigh], if sfHigh == Ace as int then RoyalFlush else StraightFlush(sfHigh), "RoyalFlush"))
    else
      var g := HandGroups(cards);
      var fc := FlushTop(cards);
      if g == [] then None
      else Some(ClassifyMade(g, fc, sh))
  }

  /** The rest of the chain, from four of a kind down to high card, given
      the non-empty groups, the flush's five values if there is a flush, and
      the straight's high card. */
  function ClassifyMade(g: seq<Group>, flush: Option<seq<int>>, sh: int): (e: Evaluation)
    requires g != [] && 2 <= g[0].key <= 14
    requires flush.Some? ==> |flush.value| == 5 && 2 <= flush.value[0] <= 14
    requires sh == -1 || 2 <= sh <= 14
    ensures InBand(e)
    ensures 1 <= Category(e.name) <= 8
  {
    if g[0].count == 4 then
      Evaluation(800 + g[0].key, Keys(g), FourOf(g[0].key), "FourOfAKind")
    else if g[0].count == 3 && |g| > 1 && g[1].count >= 2 then
      Evaluation(700 + g[0].key, [g[1].key, g[0].key], FullHouse(g[0].key, g[1].key), "FullHouse")
    else if flush.Some? then
      Evaluation(600 + flush.value[0], flush.value, Flush(flush.value[0]), "Flush")
    else if sh != -1 then
      Evaluation(500 + sh, [sh], Straight(sh), "Straight")
    else if g[0].count == 3 then
      Evaluation(400 + g[0].key, Keys(g), Three(g[0].key), "ThreeOfAKind")
    else if g[0].count == 2 && |g| > 1 && g[1].count == 2 then
      Evaluation(300 + g[0].key, Keys(g), TwoPair(g[0].key, g[1].key), "TwoPair")
    else if g[0].count == 2 then
      Evaluation(200 + g[0].key, Keys(g), OnePair(g[0].key), "OnePair")
    else
      Evaluation(100 + g[0].key, Keys(g), HighCard(g[0].key), "HighCard")
  }

  /** `EvaluateBestHand` as written: a flush together with any straight is
      a straight flush. */
  function Evaluate(cards: seq<Card>): (r: Option<Evaluation>)
    ensures r.None? <==> cards == []
    ensures r.Some? ==> InBand(r.value)
  {
    var sh := StraightHigh(DistinctValues(cards));
    Classify(cards, sh, if FlushSuit(cards).Some? && sh != -1 then sh else -1)
  }

  /** `EvaluateBestHand`, computing the straight with its loop. */
  method EvaluateBestHand(sevenCards: seq<Card>) returns (r: Option<Evaluation>)
    ensures r == Evaluate(sevenCards)
  {
    var distinctValues := DistinctValues(sevenCards);
    var straightHigh := FindStraightHigh(distinctValues);
    var isFlush := FlushSuit(sevenCards).Some?;
    r := Classify(sevenCards, straightHigh, if isFlush && straightHigh != -1 then straightHigh else -1);
  }
}
