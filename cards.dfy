/** Cards and the shuffled 52-card deck (`Card` record and `CardDeck`). */
module Cards {

  import opened Lists

  /** The four suits. The suit enumeration is not part of this model; only
      its size and a fixed declaration order are used. */
  datatype Suit = Clubs | Diamonds | Hearts | Spades

  /** Card ranks as their enumeration values: 2..10, Jack 11, Queen 12,
      King 13, Ace 14. */
  type Rank = r: int | 2 <= r <= 14 witness 2

  const Ace: Rank := 14

  /** A card is a record: equality is structural on (rank, suit). */
  datatype Card = Card(rank: Rank, suit: Suit)

  /** The rank values in enumeration order. */
  function AllRanks(): (rs: seq<Rank>)
    ensures |rs| == 13
    ensures forall i :: 0 <= i < |rs| ==> rs[i] == i + 2
  {
    seq(13, i requires 0 <= i < 13 => (i + 2) as Rank)
  }

  /** The suit values in enumeration order. */
  function AllSuits(): seq<Suit>
  {
    [Clubs, Diamonds, Hearts, Spades]
  }

  predicate NoDuplicates<T(==)>(s: seq<T>)
  {
    forall i, j :: 0 <= i < j < |s| ==> s[i] != s[j]
  }

  /** `ranks.SelectMany(rank => suits.Select(suit => new Card(rank, suit)))`:
      for each rank in order, one card per suit in order. */
  function CrossProduct(ranks: seq<Rank>, suits: seq<Suit>): (deck: seq<Card>)
    ensures |deck| == |ranks| * |suits|
    ensures forall c :: c in deck <==> c.rank in ranks && c.suit in suits
  {
    if ranks == [] then []
    else
      var row := seq(|suits|, j requires 0 <= j < |suits| => Card(ranks[0], suits[j]));
      assert forall c: Card :: c in row <==> c.rank == ranks[0] && c.suit in suits by {
        forall c: Card | c.rank == ranks[0] && c.suit in suits ensures c in row {
          var j :| 0 <= j < |suits| && suits[j] == c.suit;
          assert row[j] == c;
        }
      }
      row + CrossProduct(ranks[1..], suits)
  }

  lemma {:induction false} CrossProductNoDuplicates(ranks: seq<Rank>, suits: seq<Suit>)
    requires NoDuplicates(ranks) && NoDuplicates(suits)
    ensures NoDuplicates(CrossProduct(ranks, suits))
  {
    if ranks != [] {
      var row := seq(|suits|, j requires 0 <= j < |suits| => Card(ranks[0], suits[j]));
      var rest := CrossProduct(ranks[1..], suits);
      CrossProductNoDuplicates(ranks[1..], suits);
      assert CrossProduct(ranks, suits) == row + rest;
      assert forall c: Card :: c in rest ==> c.rank != ranks[0] by {
        forall c: Card | c in rest ensures c.rank != ranks[0] {
          var k :| 0 <= k < |ranks[1..]| && ranks[1..][k] == c.rank;
          assert ranks[k + 1] == c.rank;
        }
      }
      forall i, j | 0 <= i < j < |row + rest| ensures (row + rest)[i] != (row + rest)[j] {
        if j < |row| {
        } else if i < |row| {
          assert (row + rest)[j] in rest;
        }
      }
    }
  }

  /** The unshuffled deck, in the order the enumerations give. */
  function FullDeck(): seq<Card>
  {
    CrossProduct(AllRanks(), AllSuits())
  }

  lemma AllRanksComplete()
    ensures NoDuplicates(AllRanks())
    ensures forall r: Rank :: r in AllRanks()
  {
    var rs := AllRanks();
    forall r: Rank ensures r in rs {
      assert rs[r - 2] == r;
    }
  }

  lemma AllSuitsComplete(suit: Suit)
    ensures suit in AllSuits()
  {
    match suit
    case Clubs => assert AllSuits()[0] == suit;
    case Diamonds => assert AllSuits()[1] == suit;
    case Hearts => assert AllSuits()[2] == suit;
    case Spades => assert AllSuits()[3] == suit;
  }

  /** Crossing complete, duplicate-free rank and suit lists gives every card
      exactly once. */
  lemma CrossProductExactlyOnce(ranks: seq<Rank>, suits: seq<Suit>)
    requires NoDuplicates(ranks) && NoDuplicates(suits)
    requires forall r: Rank :: r in ranks
    requires forall s: Suit :: s in suits
    ensures NoDuplicates(CrossProduct(ranks, suits))
    ensures forall c: Card :: multiset(CrossProduct(ranks, suits))[c] == 1
  {
    var deck := CrossProduct(ranks, suits);
    CrossProductNoDuplicates(ranks, suits);
    forall c: Card ensures multiset(deck)[c] == 1 {
      assert c in deck;
      CountInDistinct(deck, c);
    }
  }

  /** Every card of the type occurs in the unshuffled deck exactly once, and
      the deck has 13 * 4 = 52 cards. */
  lemma FullDeckExactlyOnce()
    ensures |FullDeck()| == 52
    ensures NoDuplicates(FullDeck())
    ensures forall c: Card :: multiset(FullDeck())[c] == 1
  {
    AllRanksComplete();
    forall s: Suit ensures s in AllSuits() {
      AllSuitsComplete(s);
    }
    CrossProductExactlyOnce(AllRanks(), AllSuits());
  }

  /** In a sequence without duplicates every element occurs once. */
  lemma {:induction false} CountInDistinct<T>(s: seq<T>, x: T)
    requires NoDuplicates(s)
    ensures multiset(s)[x] == if x in s then 1 else 0
  {
    if s != [] {
      assert s == [s[0]] + s[1..];
      CountInDistinct(s[1..], x);
      if x == s[0] {
        forall k | 0 <= k < |s[1..]| ensures s[1..][k] != x {
          assert s[1..][k] == s[k + 1];
        }
      }
    }
  }

  /** A sequence whose elements all occur at most once has no duplicates. */
  lemma {:induction false} AtMostOnceNoDuplicates<T>(s: seq<T>)
    requires forall x :: multiset(s)[x] <= 1
    ensures NoDuplicates(s)
  {
    forall i, j | 0 <= i < j < |s| ensures s[i] != s[j] {
      assert s == s[..i] + [s[i]] + s[i + 1..j] + [s[j]] + s[j + 1..];
      assert multiset(s)[s[i]] >= 1 + multiset([s[j]])[s[i]];
    }
  }

  // ---------------------------------------------------------------------
  // The shuffle: `deck.OrderBy(_ => Random.Next())`. Each card is given a
  // key drawn from the random source (here: a parameter) and the deck is
  // stably sorted by key.

  function InsertByKey(x: (int, Card), s: seq<(int, Card)>): seq<(int, Card)>
  {
    if s == [] || x.0 <= s[0].0 then [x] + s
    else [s[0]] + InsertByKey(x, s[1..])
  }

  /** A stable ascending sort on the keys (insertion sort). */
  function SortByKey(s: seq<(int, Card)>): seq<(int, Card)>
  {
    if s == [] then [] else InsertByKey(s[0], SortByKey(s[1..]))
  }

  /** The cards of a keyed sequence, in order. */
  function CardsOf(s: seq<(int, Card)>): (cs: seq<Card>)
    ensures |cs| == |s|
    ensures forall i :: 0 <= i < |s| ==> cs[i] == s[i].1
  {
    if s == [] then [] else [s[0].1] + CardsOf(s[1..])
  }

  predicate SortedByKey(s: seq<(int, Card)>)
  {
    forall i, j :: 0 <= i < j < |s| ==> s[i].0 <= s[j].0
  }

  lemma CardsOfCons(h: (int, Card), t: seq<(int, Card)>)
    ensures CardsOf([h] + t) == [h.1] + CardsOf(t)
  {
    var l := CardsOf([h] + t);
    var r := [h.1] + CardsOf(t);
    assert |l| == |r|;
    forall i | 0 <= i < |l| ensures l[i] == r[i] {
      if i > 0 {
        assert ([h] + t)[i] == t[i - 1];
      }
    }
  }

  lemma ConsElements(a: Card, x: Card, t: seq<Card>, u: seq<Card>)
    requires multiset(t) == multiset{x} + multiset(u)
    ensures multiset([a] + t) == multiset{x} + multiset([a] + u)
  {
  }

  lemma {:induction false} InsertByKeyElements(x: (int, Card), s: seq<(int, Card)>)
    ensures multiset(CardsOf(InsertByKey(x, s))) == multiset{x.1} + multiset(CardsOf(s))
  {
    if s == [] || x.0 <= s[0].0 {
      CardsOfCons(x, s);
    } else {
      var t := InsertByKey(x, s[1..]);
      InsertByKeyElements(x, s[1..]);
      CardsOfCons(s[0], t);
      assert CardsOf(s) == [s[0].1] + CardsOf(s[1..]);
      ConsElements(s[0].1, x.1, CardsOf(t), CardsOf(s[1..]));
    }
  }

  /** Inserting keeps a lower bound shared by `x` and every key of `s`. */
  lemma {:induction false} InsertByKeyBound(x: (int, Card), s: seq<(int, Card)>, b: int)
    requires b <= x.0
    requires forall k :: 0 <= k < |s| ==> b <= s[k].0
    ensures forall k :: 0 <= k < |InsertByKey(x, s)| ==> b <= InsertByKey(x, s)[k].0
  {
    if !(s == [] || x.0 <= s[0].0) {
      InsertByKeyBound(x, s[1..], b);
    }
  }

  lemma {:induction false} InsertByKeySorted(x: (int, Card), s: seq<(int, Card)>)
    requires SortedByKey(s)
    ensures SortedByKey(InsertByKey(x, s))
  {
    if !(s == [] || x.0 <= s[0].0) {
      var t := InsertByKey(x, s[1..]);
      InsertByKeySorted(x, s[1..]);
      InsertByKeyBound(x, s[1..], s[0].0);
      var r := [s[0]] + t;
      forall i, j | 0 <= i < j < |r| ensures r[i].0 <= r[j].0 {
        if i == 0 {
          assert r[j] == t[j - 1];
        } else {
          assert r[i] == t[i - 1] && r[j] == t[j - 1];
        }
      }
    }
  }

  /** Ordering by the keys gives a key-sorted permutation of the cards.
      `OrderBy` is stable, and so is `InsertByKey`, which inserts before the
      first strictly larger key; stability is not stated here. */
  lemma {:induction false} SortByKeySpec(s: seq<(int, Card)>)
    ensures SortedByKey(SortByKey(s))
    ensures multiset(CardsOf(SortByKey(s))) == multiset(CardsOf(s))
  {
    if s != [] {
      SortByKeySpec(s[1..]);
      InsertByKeySorted(s[0], SortByKey(s[1..]));
      InsertByKeyElements(s[0], SortByKey(s[1..]));
      assert SortByKey(s) == InsertByKey(s[0], SortByKey(s[1..]));
      assert CardsOf(s) == [s[0].1] + CardsOf(s[1..]);
      calc {
        multiset(CardsOf(SortByKey(s)));
        multiset{s[0].1} + multiset(CardsOf(SortByKey(s[1..])));
        multiset{s[0].1} + multiset(CardsOf(s[1..]));
        multiset([s[0].1] + CardsOf(s[1..]));
      }
    }
  }

  /** Each card paired with its random key. */
  function Keyed(keys: seq<int>, deck: seq<Card>): (s: seq<(int, Card)>)
    requires |keys| == |deck|
    ensures CardsOf(s) == deck
  {
    seq(|deck|, i requires 0 <= i < |deck| => (keys[i], deck[i]))
  }

  /** Sorting a keyed deck in which every card occurs exactly once gives
      again every card exactly once. */
  lemma SortedDeckExactlyOnce(keys: seq<int>, full: seq<Card>)
    requires |keys| == |full|
    requires forall c: Card :: multiset(full)[c] == 1
    ensures var deck := CardsOf(SortByKey(Keyed(keys, full)));
      |deck| == |full| && multiset(deck) == multiset(full) &&
      NoDuplicates(deck) && forall c: Card :: c in deck
  {
    SortByKeySpec(Keyed(keys, full));
    var deck := CardsOf(SortByKey(Keyed(keys, full)));
    assert |deck| == |multiset(deck)| == |multiset(full)| == |full|;
    AtMostOnceNoDuplicates(deck);
    forall c: Card ensures c in deck {
      assert multiset(deck)[c] == 1;
    }
  }

  /** `GenerateShuffledDeck`: the full deck ordered by one random key per
      card. Whatever the keys, the result is a permutation of the 52 cards,
      so every card occurs exactly once. */
  function GenerateShuffledDeck(keys: seq<int>): (deck: seq<Card>)
    requires |keys| == 52
    ensures |deck| == 52
    ensures multiset(deck) == multiset(FullDeck())
    ensures NoDuplicates(deck)
    ensures forall c: Card :: c in deck
  {
    FullDeckExactlyOnce();
    SortedDeckExactlyOnce(keys, FullDeck());
    CardsOf(SortByKey(Keyed(keys, FullDeck())))
  }

  /** `MixWholeRandomCards`: `Take(52)` of a 52-card shuffled deck is that
      deck, so this too is a permutation of the full deck. */
  function MixWholeRandomCards(keys: seq<int>): (deck: seq<Card>)
    requires |keys| == 52
    ensures deck == GenerateShuffledDeck(keys)
    ensures |deck| == 52 && multiset(deck) == multiset(FullDeck()) && NoDuplicates(deck)
  {
    Take(GenerateShuffledDeck(keys), 52)
  }
}
