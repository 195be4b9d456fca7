/** Two places where `EvaluateBestHand` does not rank a hand the way poker
    does, each shown on a concrete hand, and the evaluation with both
    corrected. */
module HandFindings {

  import opened Wrappers
  import opened Lists
  import opened Cards
  import opened ValueLists
  import opened HandEvaluation
  import opened HandProperties

  // ---------------------------------------------------------------------
  // Counting on the seven cards of an example hand

  function SuitIndicator(c: Card, s: Suit): int
  {
    if c.suit == s then 1 else 0
  }

  lemma SuitCountAt(cards: seq<Card>, k: nat, s: Suit)
    requires k < |cards|
    ensures SuitCount(cards[k..], s) == SuitIndicator(cards[k], s) + SuitCount(cards[k + 1..], s)
  {
    DropDrop(cards, k, 1);
  }

  lemma SuitCountOfSeven(h: seq<Card>, s: Suit)
    requires |h| == 7
    ensures SuitCount(h, s) == SuitIndicator(h[0], s) + SuitIndicator(h[1], s) + SuitIndicator(h[2], s) +
      SuitIndicator(h[3], s) + SuitIndicator(h[4], s) + SuitIndicator(h[5], s) + SuitIndicator(h[6], s)
  {
    assert h[0..] == h;
    SuitCountAt(h, 0, s);
    SuitCountAt(h, 1, s);
    SuitCountAt(h, 2, s);
    SuitCountAt(h, 3, s);
    SuitCountAt(h, 4, s);
    SuitCountAt(h, 5, s);
    SuitCountAt(h, 6, s);
  }

  /** A hand whose values are pairwise different repeats no value. */
  lemma NoRepeatedValue(cards: seq<Card>)
    requires NoDuplicates(Values(cards))
    ensures forall v :: Occurrences(cards, v) <= 1
    ensures MaxOccurrence(cards) <= 1
  {
    forall v ensures Occurrences(cards, v) <= 1 {
      CountInDistinct(Values(cards), v);
    }
  }

  // ---------------------------------------------------------------------
  // The wheel override hides a higher straight

  /** A-clubs 2-diamonds 3-hearts 4-spades 5-clubs 6-diamonds 9-hearts:
      both the wheel and the straight 2 to 6. */
  predicate IsWheelAndSixHand(h: seq<Card>)
  {
    |h| == 7 &&
    h[0] == Card(14, Clubs) &&
    h[1] == Card(2, Diamonds) &&
    h[2] == Card(3, Hearts) &&
    h[3] == Card(4, Spades) &&
    h[4] == Card(5, Clubs) &&
    h[5] == Card(6, Diamonds) &&
    h[6] == Card(9, Hearts)
  }

  lemma WheelAndSixHandValues(h: seq<Card>)
    requires IsWheelAndSixHand(h)
    ensures forall v :: v in Values(h) <==> v in [14, 2, 3, 4, 5, 6, 9]
    ensures NoDuplicates(Values(h))
  {
    var vs := Values(h);
    assert vs[0] == 14 && vs[1] == 2 && vs[2] == 3 && vs[3] == 4 && vs[4] == 5 && vs[5] == 6 && vs[6] == 9;
  }

  lemma WheelAndSixHandNoFlush(h: seq<Card>)
    requires IsWheelAndSixHand(h)
    ensures !HasFlush(h)
  {
    forall s: Suit ensures SuitCount(h, s) < 5 {
      SuitCountOfSeven(h, s);
    }
  }

  /** As written: a hand holding the wheel and the straight six-high, with
      no flush and no three of a kind, is ranked as the five-high straight. */
  lemma WheelOverridesHigherStraight(cards: seq<Card>)
    requires cards != []
    requires HasWheel(Values(cards)) && Run(Values(cards), 6)
    requires !HasFlush(cards) && MaxOccurrence(cards) <= 2
    ensures Category(Evaluate(cards).value.name) == 5
    ensures Evaluate(cards).value.rank == 505
  {
    assert Category(Evaluate(cards).value.name) == 5 by {
      assert HasStraight(Values(cards));
      assert ExpectedCategory(cards) == 5;
      EvaluateCategory(cards);
    }
    assert StraightHigh(DistinctValues(cards)) == 5 by {
      StraightOfCards(cards);
    }
    StraightParts(cards);
  }

  /** The example hand is ranked 505, although it holds a six-high
      straight, which ranks 506. */
  lemma WheelOverrideExample(h: seq<Card>)
    requires IsWheelAndSixHand(h)
    ensures Run(Values(h), 6)
    ensures Evaluate(h).value.rank == 505
  {
    WheelAndSixHandValues(h);
    WheelAndSixHandNoFlush(h);
    NoRepeatedValue(h);
    WheelOverridesHigherStraight(h);
  }

  /** Corrected `straightHigh`: the highest run, and the wheel (five-high)
      only when there is no other straight. */
  function BestStraightHigh(dv: seq<int>): (sh: int)
    ensures sh == -1 || sh == 5 || sh in dv
  {
    var scanned := ScanStraight(dv, 0);
    if scanned != -1 then scanned else if HasWheel(dv) then 5 else -1
  }

  /** The corrected straight is the highest straight present, and -1
      exactly when there is none. */
  lemma BestStraightHighMeaning(dv: seq<int>)
    requires StrictlyDescending(dv) && RankValues(dv)
    ensures BestStraightHigh(dv) == -1 <==> !HasStraight(dv)
    ensures BestStraightHigh(dv) != -1 ==>
              Run(dv, BestStraightHigh(dv)) || (BestStraightHigh(dv) == 5 && HasWheel(dv))
    ensures forall t :: Run(dv, t) ==> t <= BestStraightHigh(dv)
    ensures HasWheel(dv) ==> 5 <= BestStraightHigh(dv)
  {
    ScanFindsHighestRun(dv);
    if ScanStraight(dv, 0) != -1 {
      var t := ScanStraight(dv, 0);
      assert t - 4 in dv;
    }
  }

  // ---------------------------------------------------------------------
  // A flush and an unrelated straight make a straight flush

  /** 2, 3, 7, 8, 9 of hearts with 5 and 6 of clubs: a heart flush and the
      straight 5 to 9, but no straight in hearts. */
  predicate IsFlushAndStraightHand(h: seq<Card>)
  {
    |h| == 7 &&
    h[0] == Card(2, Hearts) &&
    h[1] == Card(3, Hearts) &&
    h[2] == Card(7, Hearts) &&
    h[3] == Card(8, Hearts) &&
    h[4] == Card(9, Hearts) &&
    h[5] == Card(5, Clubs) &&
    h[6] == Card(6, Clubs)
  }

  lemma FlushAndStraightHandValues(h: seq<Card>)
    requires IsFlushAndStraightHand(h)
    ensures forall v :: v in Values(h) <==> v in [2, 3, 7, 8, 9, 5, 6]
    ensures NoDuplicates(Values(h))
  {
    var vs := Values(h);
    assert vs[0] == 2 && vs[1] == 3 && vs[2] == 7 && vs[3] == 8 && vs[4] == 9 && vs[5] == 5 && vs[6] == 6;
  }

  lemma FlushAndStraightHandSuits(h: seq<Card>)
    requires IsFlushAndStraightHand(h)
    ensures FlushSuit(h) == Some(Hearts)
    ensures forall v :: v in SuitValues(h, Hearts) <==> v in [2, 3, 7, 8, 9]
  {
    SuitCountOfSeven(h, Hearts);
    assert FlushSuitFrom(h, 0) == Some(Hearts);
    var sv := SuitValues(h, Hearts);
    forall v ensures v in sv <==> v in [2, 3, 7, 8, 9] {
      if v in sv {
        var i :| 0 <= i < |h| && h[i].suit == Hearts && h[i].rank == v;
        assert i < 5;
      }
      if v in [2, 3, 7, 8, 9] {
        var i := if v == 2 then 0 else if v == 3 then 1 else v - 5;
        assert h[i].suit == Hearts && h[i].rank == v;
      }
    }
  }

  /** The hearts of the example hand hold no straight. */
  lemma FlushAndStraightHandHearts(h: seq<Card>)
    requires IsFlushAndStraightHand(h)
    ensures !HasStraight(SuitValues(h, Hearts))
  {
    FlushAndStraightHandSuits(h);
    NoStraightIn23789(SuitValues(h, Hearts));
  }

  /** As written, a hand without the wheel whose highest value tops a run
      has that value as its straight. */
  lemma StraightHighIsTop(dv: seq<int>, t: int)
    requires StrictlyDescending(dv) && RankValues(dv)
    requires !HasWheel(dv) && Run(dv, t) && forall v :: v in dv ==> v <= t
    ensures StraightHigh(dv) == t
  {
    StraightHighMeaning(dv);
    assert HasStraight(dv);
  }

  /** Hands with the values 2, 3, 5, 6, 7, 8 and 9 hold the nine-high
      straight. */
  lemma NineHighStraight(cards: seq<Card>)
    requires forall v :: v in Values(cards) <==> v in [2, 3, 7, 8, 9, 5, 6]
    ensures Run(Values(cards), 9)
    ensures StraightHigh(DistinctValues(cards)) == 9
  {
    var dv := DistinctValues(cards);
    NineHighMembers(dv);
    NineHighMembers(Values(cards));
    StraightHighIsTop(dv, 9);
  }

  lemma NineHighMembers(vs: seq<int>)
    requires forall v :: v in vs <==> v in [2, 3, 7, 8, 9, 5, 6]
    ensures Run(vs, 9) && !HasWheel(vs)
    ensures forall v :: v in vs ==> v <= 9
  {
  }

  /** The example hand's straight is nine-high. */
  lemma FlushAndStraightHandStraight(h: seq<Card>)
    requires IsFlushAndStraightHand(h)
    ensures Run(Values(h), 9)
    ensures StraightHigh(DistinctValues(h)) == 9
  {
    FlushAndStraightHandValues(h);
    NineHighStraight(h);
  }

  /** As written the example hand is a straight flush ranked 909, although
      the hearts hold no straight. */
  lemma UnsuitedStraightFlushExample(h: seq<Card>)
    requires IsFlushAndStraightHand(h)
    ensures !HasStraight(SuitValues(h, Hearts))
    ensures Evaluate(h).value.rank == 909
  {
    FlushAndStraightHandHearts(h);
    FlushAndStraightHandStraight(h);
    assert HasStraight(Values(h));
    assert HasFlush(h) by {
      FlushAndStraightHandSuits(h);
      FlushMeaning(h);
    }
    EvaluateCategory(h);
    StraightParts(h);
  }

  // ---------------------------------------------------------------------
  // The corrected evaluation

  /** The distinct values of suit `s`, highest first. */
  function SuitedValues(cards: seq<Card>, s: Suit): (dv: seq<int>)
    ensures StrictlyDescending(dv) && RankValues(dv)
    ensures forall v :: v in dv <==> v in SuitValues(cards, s)
  {
    var sorted := SortDescending(SuitValues(cards, s));
    assert forall v :: v in sorted <==> v in multiset(SuitValues(cards, s));
    var dv := Distinct(sorted);
    assert forall v :: v in dv ==> v in SuitValues(cards, s);
    dv
  }

  /** `EvaluateBestHand` with both corrections: the straight is the highest
      one, and a straight flush needs a straight within the flush suit. */
  function EvaluateIntended(cards: seq<Card>): (r: Option<Evaluation>)
    ensures r.None? <==> cards == []
    ensures r.Some? ==> InBand(r.value)
  {
    var sh := BestStraightHigh(DistinctValues(cards));
    var flush := FlushSuit(cards);
    var sfHigh := if flush.Some? then BestStraightHigh(SuitedValues(cards, flush.value)) else -1;
    Classify(cards, sh, sfHigh)
  }

  /** The corrected evaluation on a non-empty hand. */
  lemma IntendedShape(cards: seq<Card>)
    requires cards != []
    ensures var flush := FlushSuit(cards);
      var sfHigh := if flush.Some? then BestStraightHigh(SuitedValues(cards, flush.value)) else -1;
      (sfHigh != -1 ==> EvaluateIntended(cards).value.rank == 900 + sfHigh &&
                        Category(EvaluateIntended(cards).value.name) == 9) &&
      (sfHigh == -1 ==> EvaluateIntended(cards).value ==
                        ClassifyMade(HandGroups(cards), FlushTop(cards), BestStraightHigh(DistinctValues(cards))))
  {
  }

  /** Corrected: a hand is a straight flush exactly when its flush suit
      holds a straight, and it is then ranked by the highest such straight. */
  lemma IntendedStraightFlush(cards: seq<Card>)
    requires cards != []
    ensures var e := EvaluateIntended(cards).value;
      Category(e.name) == 9 <==>
        FlushSuit(cards).Some? && HasStraight(SuitValues(cards, FlushSuit(cards).value))
    ensures var e := EvaluateIntended(cards).value;
      Category(e.name) == 9 ==>
        forall t :: Run(SuitValues(cards, FlushSuit(cards).value), t) ==> 900 + t <= e.rank
  {
    var e := EvaluateIntended(cards).value;
    var flush := FlushSuit(cards);
    var sfHigh := if flush.Some? then BestStraightHigh(SuitedValues(cards, flush.value)) else -1;
    IntendedShape(cards);
    if sfHigh != -1 {
      assert Category(e.name) == 9 && e.rank == 900 + sfHigh;
      SuitedRuns(cards, flush.value);
      BestStraightHighMeaning(SuitedValues(cards, flush.value));
    } else {
      assert Category(e.name) != 9 by {
        ClassifyMadeMeaning(HandGroups(cards), FlushTop(cards), BestStraightHigh(DistinctValues(cards)));
      }
      if flush.Some? {
        SuitedRuns(cards, flush.value);
        BestStraightHighMeaning(SuitedValues(cards, flush.value));
      }
    }
  }

  /** The sorted distinct values of a suit hold the same runs as the suit. */
  lemma SuitedRuns(cards: seq<Card>, s: Suit)
    ensures forall t :: Run(SuitedValues(cards, s), t) <==> Run(SuitValues(cards, s), t)
    ensures HasStraight(SuitedValues(cards, s)) <==> HasStraight(SuitValues(cards, s))
  {
    var dv := SuitedValues(cards, s);
    forall t ensures Run(dv, t) <==> Run(SuitValues(cards, s), t) {
    }
    assert HasWheel(dv) <==> HasWheel(SuitValues(cards, s));
  }

  /** Corrected: a straight is ranked by the highest straight present. */
  lemma IntendedStraight(cards: seq<Card>)
    requires cards != []
    requires Category(EvaluateIntended(cards).value.name) == 5
    ensures var e := EvaluateIntended(cards).value;
      e.rank == 500 + BestStraightHigh(DistinctValues(cards)) &&
      (forall t :: Run(Values(cards), t) ==> 500 + t <= e.rank) &&
      (HasWheel(Values(cards)) ==> 505 <= e.rank)
  {
    var e := EvaluateIntended(cards).value;
    var dv := DistinctValues(cards);
    assert e.rank == 500 + BestStraightHigh(dv) by {
      IntendedShape(cards);
      ClassifyMadeMeaning(HandGroups(cards), FlushTop(cards), BestStraightHigh(dv));
    }
    assert RankValues(dv);
    BestStraightHighMeaning(dv);
    StraightOfCards(cards);
  }

  /** Corrected, the top of the highest run is the straight, even beside
      a wheel. */
  lemma BestStraightHighIsTop(dv: seq<int>, t: int)
    requires StrictlyDescending(dv) && RankValues(dv)
    requires Run(dv, t) && forall u :: Run(dv, u) ==> u <= t
    ensures BestStraightHigh(dv) == t
  {
    BestStraightHighMeaning(dv);
    assert t - 4 >= 2;
  }

  /** Hands with the values A, 2, 3, 4, 5, 6 and 9 hold the six-high
      straight and no higher one. */
  lemma SixHighStraight(cards: seq<Card>)
    requires forall v :: v in Values(cards) <==> v in [14, 2, 3, 4, 5, 6, 9]
    ensures BestStraightHigh(DistinctValues(cards)) == 6
  {
    var dv := DistinctValues(cards);
    SixHighMembers(dv);
    BestStraightHighIsTop(dv, 6);
  }

  lemma SixHighMembers(vs: seq<int>)
    requires forall v :: v in vs <==> v in [14, 2, 3, 4, 5, 6, 9]
    ensures Run(vs, 6)
    ensures forall u :: Run(vs, u) ==> u <= 6
  {
    forall u | Run(vs, u) ensures u <= 6 {
      assert u in [14, 2, 3, 4, 5, 6, 9] && u - 1 in [14, 2, 3, 4, 5, 6, 9];
    }
  }

  /** The first example hand's highest straight is six-high. */
  lemma WheelAndSixHandBestStraight(h: seq<Card>)
    requires IsWheelAndSixHand(h)
    ensures BestStraightHigh(DistinctValues(h)) == 6
  {
    WheelAndSixHandValues(h);
    SixHighStraight(h);
  }

  /** Corrected, the first example hand is the six-high straight. */
  lemma IntendedWheelExample(h: seq<Card>)
    requires IsWheelAndSixHand(h)
    ensures EvaluateIntended(h).value.rank == 506
  {
    WheelAndSixHandBestStraight(h);
    assert FlushSuit(h).None? by {
      WheelAndSixHandNoFlush(h);
      FlushMeaning(h);
    }
    assert HandGroups(h)[0].count <= 1 by {
      WheelAndSixHandValues(h);
      NoRepeatedValue(h);
      GroupsMeaning(h);
    }
    IntendedShape(h);
    ClassifyMadeMeaning(HandGroups(h), FlushTop(h), 6);
  }

  /** A list of values with no straight has no corrected straight. */
  lemma NoBestStraight(dv: seq<int>)
    requires StrictlyDescending(dv) && RankValues(dv) && !HasStraight(dv)
    ensures BestStraightHigh(dv) == -1
  {
    BestStraightHighMeaning(dv);
  }

  lemma NoStraightIn23789(vs: seq<int>)
    requires forall v :: v in vs <==> v in [2, 3, 7, 8, 9]
    ensures !HasStraight(vs)
  {
    forall t ensures !Run(vs, t) {
      if t in vs {
        assert t == 2 || t == 3 || t == 7 || t == 8 || t == 9;
      }
    }
  }

  /** The hearts of the second example hand make no straight flush. */
  lemma FlushAndStraightHandNoSuitedStraight(h: seq<Card>)
    requires IsFlushAndStraightHand(h)
    ensures BestStraightHigh(SuitedValues(h, Hearts)) == -1
  {
    var dv := SuitedValues(h, Hearts);
    FlushAndStraightHandSuits(h);
    NoStraightIn23789(dv);
    NoBestStraight(dv);
  }

  /** The flush's deciding value is the highest card of the flush suit. */
  lemma FlushTopIs(cards: seq<Card>, s: Suit, t: int)
    requires FlushSuit(cards) == Some(s)
    requires t in SuitValues(cards, s) && forall v :: v in SuitValues(cards, s) ==> v <= t
    ensures FlushTop(cards).Some? && FlushTop(cards).value[0] == t
  {
    var sv := SuitValues(cards, s);
    var fc := FlushValues(cards, s);
    assert FlushTop(cards) == Some(fc);
    assert fc[0] in multiset(fc);
    assert fc[0] in multiset(sv);
    assert fc[0] in sv;
    assert fc[0] <= t && t <= fc[0];
  }

  /** The flush of the second example hand is nine-high. */
  lemma FlushAndStraightHandFlushTop(h: seq<Card>)
    requires IsFlushAndStraightHand(h)
    ensures FlushTop(h).Some?
    ensures FlushTop(h).value[0] == 9
  {
    FlushAndStraightHandSuits(h);
    FlushTopIs(h, Hearts, 9);
  }

  /** Corrected, a hand with a flush but no straight in its suit and no
      pair is ranked as a flush. */
  lemma IntendedPlainFlush(cards: seq<Card>)
    requires cards != [] && FlushSuit(cards).Some?
    requires BestStraightHigh(SuitedValues(cards, FlushSuit(cards).value)) == -1
    requires HandGroups(cards)[0].count <= 1
    ensures FlushTop(cards).Some?
    ensures EvaluateIntended(cards).value.rank == 600 + FlushTop(cards).value[0]
  {
    IntendedShape(cards);
    ClassifyMadeMeaning(HandGroups(cards), FlushTop(cards), BestStraightHigh(DistinctValues(cards)));
  }

  /** Corrected, the second example hand is the nine-high heart flush. */
  lemma IntendedFlushExample(h: seq<Card>)
    requires IsFlushAndStraightHand(h)
    ensures EvaluateIntended(h).value.rank == 609
  {
    assert FlushSuit(h) == Some(Hearts) by {
      FlushAndStraightHandSuits(h);
    }
    FlushAndStraightHandNoSuitedStraight(h);
    FlushAndStraightHandFlushTop(h);
    assert HandGroups(h)[0].count <= 1 by {
      FlushAndStraightHandValues(h);
      NoRepeatedValue(h);
      GroupsMeaning(h);
    }
    IntendedPlainFlush(h);
  }
}
