/** The deal primitives of `GamePlayHelpers`: burning a card, dealing hole
    cards, the flop, the turn and the river. The deck and the community
    cards are lists changed in place; either may be `null`. A deck too short
    for a deal makes .NET throw an index exception, which is not modelled:
    such deals require enough cards. */
module Dealing {

  import opened Wrappers
  import opened Lists
  import opened Cards
  import opened Players

  /** Seat `i` is the last seat of `ps[..k]` held by its player object, so the
      cards that object ends up with are the ones dealt to seat `i`. */
  ghost predicate LastSeat(ps: seq<Player>, i: int, k: int)
    requires 0 <= i < k <= |ps|
  {
    forall j :: i < j < k ==> ps[j] != ps[i]
  }

  /** `BurnCard`: drops the top card of a non-null deck. */
  method BurnCard(cardset: MutableList?<Card>)
    requires cardset != null ==> |cardset.items| >= 1
    modifies cardset
    ensures cardset != null ==> old(cardset.items) == [old(cardset.items)[0]] + cardset.items
    ensures cardset != null ==> cardset.items == old(cardset.items)[1..]
  {
    if cardset == null {
      return;
    }
    cardset.RemoveAt(0);
  }

  /** Seats `0..k` hold the cards dealt from `d`, two per seat in order
      (for player objects listed more than once, their last seat counts). */
  ghost predicate HoleCardsDealt(ps: seq<Player>, d: seq<Card>, k: nat)
    requires k <= |ps| && 2 * k <= |d|
    reads ps
  {
    forall i :: 0 <= i < k && LastSeat(ps, i, k) ==>
      ps[i].card1 == Some(d[2 * i]) && ps[i].card2 == Some(d[2 * i + 1])
  }

  /** The `foreach` of hole-card dealing: in seat order, each player takes the
      top card as `card1`, then the next as `card2`. A player object listed
      twice keeps the cards of its last seat. */
  method DealHoleCards(deck: MutableList<Card>, players: seq<Player>)
    requires |deck.items| >= 2 * |players|
    modifies deck, players`card1, players`card2
    ensures deck.items == old(deck.items)[2 * |players|..]
    ensures HoleCardsDealt(players, old(deck.items), |players|)
    ensures forall p :: p in players ==> p.currentBet == old(p.currentBet) && p.remainingBet == old(p.remainingBet)
  {
    ghost var d0 := deck.items;
    var k := 0;
    while k < |players|
      invariant 0 <= k <= |players|
      invariant deck.items == d0[2 * k..]
      invariant HoleCardsDealt(players, d0, k)
    {
      var player := players[k];
      label before:
      DealTwo(deck, player);
      DropDrop(d0, 2 * k, 2);
      forall i | 0 <= i < k + 1 && LastSeat(players, i, k + 1)
        ensures players[i].card1 == Some(d0[2 * i]) && players[i].card2 == Some(d0[2 * i + 1])
      {
        if i < k {
          assert LastSeat(players, i, k);
          assert players[i].card1 == old@before(players[i].card1);
          assert players[i].card2 == old@before(players[i].card2);
        }
      }
      k := k + 1;
    }
  }

  /** One pass of that loop: the player takes the top card as `card1`, then
      the new top card as `card2`. */
  method DealTwo(deck: MutableList<Card>, player: Player)
    requires |deck.items| >= 2
    modifies deck, player`card1, player`card2
    ensures player.card1 == Some(old(deck.items)[0]) && player.card2 == Some(old(deck.items)[1])
    ensures deck.items == old(deck.items)[1..][1..]
  {
    player.card1 := Some(deck.items[0]);
    deck.RemoveAt(0);
    player.card2 := Some(deck.items[0]);
    deck.RemoveAt(0);
  }

  /** `DealPlayerCards`: with a deck and a player list, burns one card and
      deals two hole cards per player, so seat `i` gets the deck's cards
      `1 + 2i` and `2 + 2i` and the deck keeps what follows the `2n + 1`
      cards used. A null deck or a null player list changes nothing. The
      player list itself is only read, so it is a value (`None` for null). */
  method DealPlayerCards(cardset: MutableList?<Card>, players: Option<seq<Player>>)
    requires cardset != null && players.Some? ==> |cardset.items| >= 1 + 2 * |players.value|
    modifies cardset, if players.Some? then players.value else []
    ensures cardset == null || players.None? ==> cardset != null ==> unchanged(cardset)
    ensures cardset == null && players.Some? ==> forall p :: p in players.value ==> unchanged(p)
    ensures cardset != null && players.Some? ==>
      cardset.items == old(cardset.items)[1 + 2 * |players.value|..]
    ensures cardset != null && players.Some? ==>
      HoleCardsDealt(players.value, old(cardset.items)[1..], |players.value|)
    ensures players.Some? ==> forall p :: p in players.value ==>
      p.currentBet == old(p.currentBet) && p.remainingBet == old(p.remainingBet)
  {
    if cardset == null || players.None? {
      return;
    }
    ghost var d0 := cardset.items;
    BurnCard(cardset);
    DealHoleCards(cardset, players.value);
    DropDrop(d0, 1, 2 * |players.value|);
  }

  /** `DealFlop`: burns one card and appends the next three, in order, to the
      community cards; the deck loses its first four cards. With a null
      community list the three cards go to a fresh list the caller never
      sees, but the deck still loses them. When the deck and the community
      list are one list, the three cards end up at its end. */
  method DealFlop(cardset: MutableList?<Card>, communityset: MutableList?<Card>)
    requires cardset != null ==> |cardset.items| >= 4
    modifies cardset, communityset
    ensures cardset == null && communityset != null ==> unchanged(communityset)
    ensures cardset != null && communityset != cardset ==> cardset.items == old(cardset.items)[4..]
    ensures cardset != null && communityset != null && communityset != cardset ==>
      communityset.items == old(communityset.items) + old(cardset.items)[1..4]
    ensures cardset != null && communityset != null && communityset != cardset ==>
      old(cardset.items) == [old(cardset.items)[0]] + communityset.items[|old(communityset.items)|..] + cardset.items
    ensures cardset != null && communityset == cardset ==>
      cardset.items == old(cardset.items)[4..] + old(cardset.items)[1..4]
  {
    if cardset == null {
      return;
    }
    ghost var d0 := cardset.items;
    BurnCard(cardset);
    if communityset == null {
      var community := new MutableList<Card>([]);
      AddTopThree(cardset, community);
    } else {
      AddTopThree(cardset, communityset);
    }
    cardset.RemoveRange(0, 3);
    if communityset == cardset {
      DropFromAppend(d0[1..], d0[1..][..3], 3);
      DropDrop(d0, 1, 3);
      assert d0[1..][..3] == d0[1..4];
    }
  }

  /** The three `Add` calls of the flop: the top three cards of `from` are
      appended to `to`, which may be `from` itself. */
  method AddTopThree(from: MutableList<Card>, to: MutableList<Card>)
    requires |from.items| >= 3
    modifies to
    ensures to.items == old(to.items) + old(from.items)[..3]
  {
    ghost var d := from.items;
    to.Add(from.items[0]);
    assert from.items[..3] == d[..3];
    to.Add(from.items[1]);
    assert from.items[..3] == d[..3];
    to.Add(from.items[2]);
  }

  /** `DealTurn`: burns one card and appends the next to the community cards,
      so the deck loses two cards. Either list null: nothing changes. */
  method DealTurn(cardset: MutableList?<Card>, communityset: MutableList?<Card>)
    requires cardset != null && communityset != null ==> |cardset.items| >= 2
    modifies cardset, communityset
    ensures cardset == null && communityset != null ==> unchanged(communityset)
    ensures cardset != null && communityset == null ==> unchanged(cardset)
    ensures cardset != null && communityset != null && communityset != cardset ==>
      cardset.items == old(cardset.items)[2..] && communityset.items == old(communityset.items) + [old(cardset.items)[1]]
    ensures cardset != null && communityset != null && communityset != cardset ==>
      old(cardset.items) == [old(cardset.items)[0]] + communityset.items[|old(communityset.items)|..] + cardset.items
    ensures cardset != null && communityset == cardset ==>
      cardset.items == old(cardset.items)[2..] + [old(cardset.items)[1]]
  {
    if cardset == null || communityset == null {
      return;
    }
    ghost var d0 := cardset.items;
    ghost var c0 := communityset.items;
    BurnCard(cardset);
    communityset.Add(cardset.items[0]);
    cardset.RemoveAt(0);
    DropDrop(d0, 1, 1);
    if communityset == cardset {
      DropFromAppend(d0[1..], [d0[1]], 1);
    } else {
      assert communityset.items[|c0|..] == [d0[1]];
      assert d0 == [d0[0]] + [d0[1]] + d0[2..];
    }
  }

  /** `DealRiver`: the same steps as the turn, for the fifth community card. */
  method DealRiver(cardset: MutableList?<Card>, communityset: MutableList?<Card>)
    requires cardset != null && communityset != null ==> |cardset.items| >= 2
    modifies cardset, communityset
    ensures cardset == null && communityset != null ==> unchanged(communityset)
    ensures cardset != null && communityset == null ==> unchanged(cardset)
    ensures cardset != null && communityset != null && communityset != cardset ==>
      cardset.items == old(cardset.items)[2..] && communityset.items == old(communityset.items) + [old(cardset.items)[1]]
    ensures cardset != null && communityset != null && communityset != cardset ==>
      old(cardset.items) == [old(cardset.items)[0]] + communityset.items[|old(communityset.items)|..] + cardset.items
    ensures cardset != null && communityset == cardset ==>
      cardset.items == old(cardset.items)[2..] + [old(cardset.items)[1]]
  {
    if cardset == null || communityset == null {
      return;
    }
    ghost var d0 := cardset.items;
    ghost var c0 := communityset.items;
    BurnCard(cardset);
    communityset.Add(cardset.items[0]);
    cardset.RemoveAt(0);
    DropDrop(d0, 1, 1);
    if communityset == cardset {
      DropFromAppend(d0[1..], [d0[1]], 1);
    } else {
      assert communityset.items[|c0|..] == [d0[1]];
      assert d0 == [d0[0]] + [d0[1]] + d0[2..];
    }
  }
}
