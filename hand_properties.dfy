/** What the rank computed by `EvaluateBestHand` means, stated in terms of
    the cards themselves: how often each value occurs, how many cards each
    suit has, and which runs of five consecutive values are present. */
module HandProperties {

  import opened Wrappers
  import opened Cards
  import opened ValueLists
  import opened HandEvaluation

  // ---------------------------------------------------------------------
  // Straights

  /** Five consecutive values topped by `top` are all present. */
  predicate Run(vs: seq<int>, top: int)
  {
    top in vs && top - 1 in vs && top - 2 in vs && top - 3 in vs && top - 4 in vs
  }

  /** Every value is a card rank. */
  predicate RankValues(vs: seq<int>)
  {
    forall v :: v in vs ==> 2 <= v <= 14
  }

  /** Some straight is present, the wheel A-2-3-4-5 included. */
  ghost predicate HasStraight(vs: seq<int>)
  {
    HasWheel(vs) || exists t :: Run(vs, t)
  }

  /** In strictly descending values, the value one below `dv[k]`, when
      present, comes right after it. */
  lemma NextInRun(dv: seq<int>, k: int, v: int)
    requires StrictlyDescending(dv) && 0 <= k < |dv| && dv[k] == v && v - 1 in dv
    ensures k + 1 < |dv| && dv[k + 1] == v - 1
  {
    var i :| 0 <= i < |dv| && dv[i] == v - 1;
    assert k < i;
    DescendingAt(dv, k + 1, i);
  }

  lemma DescendingAt(dv: seq<int>, a: int, b: int)
    requires StrictlyDescending(dv) && 0 <= a <= b < |dv|
    ensures dv[a] >= dv[b]
  {
  }

  /** A run topped by `dv[k]` occupies the five places from `k`. */
  lemma RunSpan(dv: seq<int>, k: int)
    requires StrictlyDescending(dv) && 0 <= k < |dv| && Run(dv, dv[k])
    ensures k + 4 < |dv| && dv[k + 4] == dv[k] - 4
  {
    var t := dv[k];
    NextInRun(dv, k, t);
    NextInRun(dv, k + 1, t - 1);
    NextInRun(dv, k + 2, t - 2);
    NextInRun(dv, k + 3, t - 3);
  }

  /** The scan from index `i` finds a run, and no run starting at or after
      `i` is higher than what it finds. */
  lemma {:induction false} ScanStraightSpec(dv: seq<int>, i: nat)
    requires StrictlyDescending(dv) && RankValues(dv)
    decreases |dv| - i
    ensures ScanStraight(dv, i) != -1 ==> Run(dv, ScanStraight(dv, i))
    ensures forall k :: i <= k && k + 4 < |dv| && dv[k] - dv[k + 4] == 4 ==>
              ScanStraight(dv, i) != -1 && dv[k] <= ScanStraight(dv, i)
  {
    if i + 5 > |dv| {
    } else if dv[i] - dv[i + 4] == 4 {
      assert dv[i] > dv[i + 1] > dv[i + 2] > dv[i + 3] > dv[i + 4];
      assert dv[i + 1] == dv[i] - 1 && dv[i + 2] == dv[i] - 2 && dv[i + 3] == dv[i] - 3;
      assert Run(dv, dv[i]) by {
        assert dv[i] in dv && dv[i + 1] in dv && dv[i + 2] in dv && dv[i + 3] in dv && dv[i + 4] in dv;
      }
      forall k | i < k < |dv| ensures dv[k] < dv[i] {
      }
    } else {
      ScanStraightSpec(dv, i + 1);
    }
  }

  /** The `for` loop's result is the top of the highest run, and -1 exactly
      when there is no run. */
  lemma ScanFindsHighestRun(dv: seq<int>)
    requires StrictlyDescending(dv) && RankValues(dv)
    ensures ScanStraight(dv, 0) == -1 <==> forall t :: !Run(dv, t)
    ensures ScanStraight(dv, 0) != -1 ==>
              Run(dv, ScanStraight(dv, 0)) && forall t :: Run(dv, t) ==> t <= ScanStraight(dv, 0)
  {
    ScanStraightSpec(dv, 0);
    forall t | Run(dv, t) ensures ScanStraight(dv, 0) != -1 && t <= ScanStraight(dv, 0) {
      var k :| 0 <= k < |dv| && dv[k] == t;
      RunSpan(dv, k);
    }
  }

  /** `straightHigh` as written: 5 whenever the wheel is present, otherwise
      the top of the highest run, and -1 exactly when there is no straight. */
  lemma StraightHighMeaning(dv: seq<int>)
    requires StrictlyDescending(dv) && RankValues(dv)
    ensures HasWheel(dv) ==> StraightHigh(dv) == 5
    ensures StraightHigh(dv) == -1 <==> !HasStraight(dv)
    ensures !HasWheel(dv) && StraightHigh(dv) != -1 ==>
              Run(dv, StraightHigh(dv)) && forall t :: Run(dv, t) ==> t <= StraightHigh(dv)
  {
    ScanFindsHighestRun(dv);
  }

  /** The straight seen in the distinct sorted values is the straight of
      the cards. */
  lemma StraightOfCards(cards: seq<Card>)
    ensures StraightHigh(DistinctValues(cards)) == -1 <==> !HasStraight(Values(cards))
    ensures HasWheel(DistinctValues(cards)) <==> HasWheel(Values(cards))
    ensures forall t :: Run(DistinctValues(cards), t) <==> Run(Values(cards), t)
  {
    var dv := DistinctValues(cards);
    var vs := Values(cards);
    assert RankValues(dv);
    StraightHighMeaning(dv);
    forall t ensures Run(dv, t) <==> Run(vs, t) {
    }
    assert HasWheel(dv) <==> HasWheel(vs);
    assert HasStraight(dv) <==> HasStraight(vs);
  }

  // ---------------------------------------------------------------------
  // Multiplicities

  /** The largest number of occurrences among the values `vs`. */
  function MaxOccurrenceIn(cards: seq<Card>, vs: seq<int>): (m: nat)
    ensures forall i :: 0 <= i < |vs| ==> Occurrences(cards, vs[i]) <= m
    ensures vs == [] ==> m == 0
    ensures vs != [] ==> exists i :: 0 <= i < |vs| && Occurrences(cards, vs[i]) == m
  {
    if vs == [] then 0
    else
      var rest := MaxOccurrenceIn(cards, vs[1..]);
      assert forall i :: 1 <= i < |vs| ==> vs[i] == vs[1..][i - 1];
      assert vs[1..] != [] ==> exists i :: 1 <= i < |vs| && Occurrences(cards, vs[i]) == rest;
      if Occurrences(cards, vs[0]) >= rest then Occurrences(cards, vs[0]) else rest
  }

  /** The largest number of cards that share a value. */
  function MaxOccurrence(cards: seq<Card>): (m: nat)
    ensures forall v :: Occurrences(cards, v) <= m
    ensures cards != [] ==> exists v :: Occurrences(cards, v) == m
  {
    var vs := Values(cards);
    var m := MaxOccurrenceIn(cards, vs);
    forall v ensures Occurrences(cards, v) <= m {
      if v in vs {
        var i :| 0 <= i < |vs| && vs[i] == v;
      }
    }
    m
  }

  /** Two different values occur, the first exactly `a` times and the
      second at least `b` times. */
  ghost predicate TwoValuesWith(cards: seq<Card>, a: nat, b: nat)
  {
    exists v, w :: v != w && Occurrences(cards, v) == a && Occurrences(cards, w) >= b
  }

  /** The size of the second group, 0 when there is only one. */
  function SecondCount(g: seq<Group>): nat
  {
    if |g| > 1 then g[1].count else 0
  }

  /** The first group is the most frequent value, the highest among
      equally frequent ones; the second group is the most frequent of the
      other values, again the highest among equals. */
  lemma GroupsMeaning(cards: seq<Card>)
    requires cards != []
    ensures HandGroups(cards)[0].count == MaxOccurrence(cards)
    ensures forall v :: Occurrences(cards, v) == MaxOccurrence(cards) ==> v <= HandGroups(cards)[0].key
    ensures forall v :: v != HandGroups(cards)[0].key ==> Occurrences(cards, v) <= SecondCount(HandGroups(cards))
    ensures |HandGroups(cards)| > 1 ==>
              forall v :: v != HandGroups(cards)[0].key && Occurrences(cards, v) == HandGroups(cards)[1].count ==>
                v <= HandGroups(cards)[1].key
  {
    var g := HandGroups(cards);
    var m := MaxOccurrence(cards);
    forall v | Occurrences(cards, v) > 0
      ensures Occurrences(cards, v) <= g[0].count
      ensures Occurrences(cards, v) == g[0].count ==> v <= g[0].key
      ensures v != g[0].key ==> Occurrences(cards, v) <= SecondCount(g)
      ensures |g| > 1 && v != g[0].key && Occurrences(cards, v) == g[1].count ==> v <= g[1].key
    {
      var i := GroupOf(cards, v);
      if i > 0 {
        assert GroupBefore(g[0], g[i]);
      }
      if i > 1 {
        assert GroupBefore(g[1], g[i]);
      }
    }
    var w :| Occurrences(cards, w) == m;
  }

  /** The group of a value that occurs. */
  lemma GroupOf(cards: seq<Card>, v: int) returns (i: int)
    requires Occurrences(cards, v) > 0
    ensures 0 <= i < |HandGroups(cards)|
    ensures HandGroups(cards)[i].key == v && HandGroups(cards)[i].count == Occurrences(cards, v)
  {
    var vs := Values(cards);
    var g := HandGroups(cards);
    assert multiset(vs)[v] > 0;
    assert v in vs;
    i :| 0 <= i < |g| && g[i].key == v;
  }

  /** Whether a second group of at least `b` cards exists, in terms of the
      occurrences alone. */
  lemma SecondGroupMeaning(cards: seq<Card>, b: nat)
    requires cards != [] && 1 <= b <= MaxOccurrence(cards)
    ensures TwoValuesWith(cards, MaxOccurrence(cards), b) <==>
              |HandGroups(cards)| > 1 && HandGroups(cards)[1].count >= b
  {
    var g := HandGroups(cards);
    var m := MaxOccurrence(cards);
    GroupsMeaning(cards);
    if |g| > 1 && g[1].count >= b {
      assert g[0].key != g[1].key;
      assert TwoValuesWith(cards, m, b);
    }
    if TwoValuesWith(cards, m, b) {
      var v, w :| v != w && Occurrences(cards, v) == m && Occurrences(cards, w) >= b;
      if w != g[0].key {
        assert SecondCount(g) >= b;
      } else {
        assert SecondCount(g) >= m;
      }
    }
  }

  /** The flush test looks for a suit with five cards. */
  ghost predicate HasFlush(cards: seq<Card>)
  {
    exists s: Suit :: SuitCount(cards, s) >= 5
  }

  lemma FlushMeaning(cards: seq<Card>)
    ensures FlushSuit(cards).Some? <==> HasFlush(cards)
  {
    if FlushSuit(cards).Some? {
      assert SuitCount(cards, FlushSuit(cards).value) >= 5;
    }
  }

  // ---------------------------------------------------------------------
  // Categories

  /** The category the hand belongs to, decided by the occurrences, the
      suit counts and the runs, in the precedence of `EvaluateBestHand`. A
      flush together with any straight counts as a straight flush. */
  ghost function ExpectedCategory(cards: seq<Card>): int
  {
    var m := MaxOccurrence(cards);
    var flush := HasFlush(cards);
    var straight := HasStraight(Values(cards));
    if flush && straight then 9
    else if m == 4 then 8
    else if m == 3 && TwoValuesWith(cards, 3, 2) then 7
    else if flush then 6
    else if straight then 5
    else if m == 3 then 4
    else if m == 2 && TwoValuesWith(cards, 2, 2) then 3
    else if m == 2 then 2
    else 1
  }

  /** What the chain from four of a kind down decides, in terms of the
      first two groups, the flush and the straight. */
  lemma ClassifyMadeMeaning(g: seq<Group>, flush: Option<seq<int>>, sh: int)
    requires g != [] && 2 <= g[0].key <= 14
    requires flush.Some? ==> |flush.value| == 5 && 2 <= flush.value[0] <= 14
    requires sh == -1 || 2 <= sh <= 14
    ensures var e := ClassifyMade(g, flush, sh);
      Category(e.name) ==
        if g[0].count == 4 then 8
        else if g[0].count == 3 && SecondCount(g) >= 2 then 7
        else if flush.Some? then 6
        else if sh != -1 then 5
        else if g[0].count == 3 then 4
        else if g[0].count == 2 && SecondCount(g) == 2 then 3
        else if g[0].count == 2 then 2
        else 1
    ensures var e := ClassifyMade(g, flush, sh);
      Category(e.name) in {8, 4, 3, 2, 1} ==> DecidingValue(e) == g[0].key && e.tie == Keys(g)
    ensures var e := ClassifyMade(g, flush, sh);
      Category(e.name) == 7 ==>
        |g| > 1 && e.name == FullHouse(g[0].key, g[1].key) && e.tie == [g[1].key, g[0].key] &&
        DecidingValue(e) == g[0].key
    ensures var e := ClassifyMade(g, flush, sh);
      Category(e.name) == 6 ==> flush.Some? && e.name.Flush? && e.tie == flush.value && DecidingValue(e) == flush.value[0]
    ensures var e := ClassifyMade(g, flush, sh);
      Category(e.name) == 5 ==> DecidingValue(e) == sh && e.tie == [sh]
  {
  }

  /** `EvaluateBestHand` on a non-empty hand: the straight flush case, or
      the rest of the chain. */
  lemma EvaluateShape(cards: seq<Card>)
    requires cards != []
    ensures var sh := StraightHigh(DistinctValues(cards));
      FlushSuit(cards).Some? && sh != -1 ==>
        Evaluate(cards).value.rank == 900 + sh && Evaluate(cards).value.tie == [sh] &&
        Evaluate(cards).value.name == (if sh == Ace as int then RoyalFlush else StraightFlush(sh))
    ensures var sh := StraightHigh(DistinctValues(cards));
      !(FlushSuit(cards).Some? && sh != -1) ==>
        Evaluate(cards).value == ClassifyMade(HandGroups(cards), FlushTop(cards), sh)
  {
  }

  /** The category of the evaluation is the expected one. */
  lemma EvaluateCategory(cards: seq<Card>)
    requires cards != []
    ensures Category(Evaluate(cards).value.name) == ExpectedCategory(cards)
  {
    var sh := StraightHigh(DistinctValues(cards));
    var g := HandGroups(cards);
    var m := MaxOccurrence(cards);
    assert FlushSuit(cards).Some? == HasFlush(cards) by {
      FlushMeaning(cards);
    }
    assert (sh != -1) == HasStraight(Values(cards)) by {
      StraightOfCards(cards);
    }
    assert g[0].count == m by {
      GroupsMeaning(cards);
    }
    assert m == 3 ==> (TwoValuesWith(cards, 3, 2) <==> SecondCount(g) >= 2) by {
      if m == 3 {
        SecondGroupMeaning(cards, 2);
      }
    }
    assert m == 2 ==> (TwoValuesWith(cards, 2, 2) <==> SecondCount(g) == 2) by {
      if m == 2 {
        SecondGroupMeaning(cards, 2);
        assert |g| > 1 ==> GroupBefore(g[0], g[1]);
      }
    }
    EvaluateShape(cards);
    if !(FlushSuit(cards).Some? && sh != -1) {
      ClassifyMadeMeaning(g, FlushTop(cards), sh);
    }
  }

  /** The value a rank adds to its category's hundred. */
  function DecidingValue(e: Evaluation): int
  {
    e.rank - 100 * Category(e.name)
  }

  /** For the categories decided by groups the deciding value is the most
      frequent value, the highest among equally frequent ones. */
  lemma GroupDecidingValue(cards: seq<Card>)
    requires cards != []
    requires Category(Evaluate(cards).value.name) in {8, 7, 4, 3, 2, 1}
    ensures Occurrences(cards, DecidingValue(Evaluate(cards).value)) == MaxOccurrence(cards)
    ensures forall v :: Occurrences(cards, v) == MaxOccurrence(cards) ==> v <= DecidingValue(Evaluate(cards).value)
  {
    EvaluateShape(cards);
    GroupsMeaning(cards);
    ClassifyMadeMeaning(HandGroups(cards), FlushTop(cards), StraightHigh(DistinctValues(cards)));
  }

  /** A full house names the trips and, as the pair, the most frequent
      other value (the highest among equals); its tie list is
      [pair, trips]. */
  lemma FullHouseParts(cards: seq<Card>)
    requires cards != []
    requires Evaluate(cards).value.name.FullHouse?
    ensures var e := Evaluate(cards).value;
      e.tie == [e.name.pair, e.name.trips] &&
      e.name.trips == DecidingValue(e) &&
      Occurrences(cards, e.name.trips) == 3 &&
      e.name.pair != e.name.trips &&
      Occurrences(cards, e.name.pair) >= 2 &&
      (forall v :: v != e.name.trips ==> Occurrences(cards, v) <= Occurrences(cards, e.name.pair)) &&
      (forall v :: v != e.name.trips && Occurrences(cards, v) == Occurrences(cards, e.name.pair) ==> v <= e.name.pair)
  {
    EvaluateShape(cards);
    GroupsMeaning(cards);
    ClassifyMadeMeaning(HandGroups(cards), FlushTop(cards), StraightHigh(DistinctValues(cards)));
  }

  /** For the categories decided by groups the tie list holds every value
      once, more frequent values first and higher values first among
      equally frequent ones. */
  lemma GroupTieList(cards: seq<Card>)
    requires cards != []
    requires Category(Evaluate(cards).value.name) in {8, 4, 3, 2, 1}
    ensures var t := Evaluate(cards).value.tie;
      (forall v :: v in t <==> v in Values(cards)) &&
      (forall i, j :: 0 <= i < j < |t| ==>
         Occurrences(cards, t[i]) > Occurrences(cards, t[j]) ||
         (Occurrences(cards, t[i]) == Occurrences(cards, t[j]) && t[i] > t[j]))
  {
    assert Evaluate(cards).value.tie == Keys(HandGroups(cards)) by {
      EvaluateShape(cards);
      ClassifyMadeMeaning(HandGroups(cards), FlushTop(cards), StraightHigh(DistinctValues(cards)));
    }
    GroupKeysOrder(cards);
  }

  /** The keys of the groups list every value once, in the groups' order. */
  lemma GroupKeysOrder(cards: seq<Card>)
    ensures var t := Keys(HandGroups(cards));
      (forall v :: v in t <==> v in Values(cards)) &&
      (forall i, j :: 0 <= i < j < |t| ==>
         Occurrences(cards, t[i]) > Occurrences(cards, t[j]) ||
         (Occurrences(cards, t[i]) == Occurrences(cards, t[j]) && t[i] > t[j]))
  {
    var g := HandGroups(cards);
    var t := Keys(g);
    forall v | v in Values(cards) ensures v in t {
      var i :| 0 <= i < |g| && g[i].key == v;
      assert t[i] == v;
    }
    forall i, j | 0 <= i < j < |t|
      ensures Occurrences(cards, t[i]) > Occurrences(cards, t[j]) ||
              (Occurrences(cards, t[i]) == Occurrences(cards, t[j]) && t[i] > t[j])
    {
      assert GroupBefore(g[i], g[j]);
    }
  }

  /** A flush is decided by the highest card of the flush suit, and its tie
      list is that suit's five highest values in descending order. */
  lemma FlushParts(cards: seq<Card>)
    requires cards != []
    requires Evaluate(cards).value.name.Flush?
    ensures FlushSuit(cards).Some?
    ensures var e := Evaluate(cards).value; var sv := SuitValues(cards, FlushSuit(cards).value);
      |e.tie| == 5 && Descending(e.tie) &&
      DecidingValue(e) == e.tie[0] &&
      multiset(e.tie) <= multiset(sv) &&
      (forall v :: v in sv ==> v <= e.tie[0]) &&
      (forall v :: v in multiset(sv) - multiset(e.tie) ==> v <= e.tie[4])
  {
    EvaluateShape(cards);
    ClassifyMadeMeaning(HandGroups(cards), FlushTop(cards), StraightHigh(DistinctValues(cards)));
  }

  /** Straights and straight flushes are decided by `straightHigh`, and the
      hand is named Royal Flush exactly when that is an ace. */
  lemma StraightParts(cards: seq<Card>)
    requires cards != []
    ensures var e := Evaluate(cards).value;
      Category(e.name) in {9, 5} ==>
        DecidingValue(e) == StraightHigh(DistinctValues(cards)) && e.tie == [DecidingValue(e)]
    ensures var e := Evaluate(cards).value;
      e.name == RoyalFlush <==> Category(e.name) == 9 && DecidingValue(e) == Ace as int
  {
    var sh := StraightHigh(DistinctValues(cards));
    EvaluateShape(cards);
    if !(FlushSuit(cards).Some? && sh != -1) {
      ClassifyMadeMeaning(HandGroups(cards), FlushTop(cards), sh);
    }
  }

  /** Comparing ranks compares categories first. */
  lemma RankOrdersCategories(a: seq<Card>, b: seq<Card>)
    requires a != [] && b != []
    ensures Category(Evaluate(a).value.name) < Category(Evaluate(b).value.name) ==>
              Evaluate(a).value.rank < Evaluate(b).value.rank
  {
  }
}
