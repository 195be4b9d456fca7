/** The legal-action resolver: which actions a player may choose from, given
    the player's own bet and chips and the table's current bet. */
module ActionResolver {

  import opened Enums
  import opened Players
  import opened GameContexts

  /** `ActionOption`: an action kind and whether choosing it asks for an
      amount. The label the source derives from the kind is text only. */
  datatype ActionOption = ActionOption(actionType: PlayerAction, requiresAmount: bool)

  /** The rule table, stated independently of the resolver: the actions a
      player with bet `playerBet` and `remainingBet` chips left may take when
      the table bet is `tableBet`. */
  predicate Permitted(a: PlayerAction, playerBet: int, remainingBet: int, tableBet: int)
  {
    match a
    case Fold => true
    case Check => playerBet == tableBet
    case Call => playerBet < tableBet
    case Bet => tableBet == 0
    case Raise => tableBet != 0
    case AllIn => remainingBet > 0
    case _ => false
  }

  /** The position an action takes in the list: fold, then check or call,
      then bet or raise, then all-in. */
  function Tier(a: PlayerAction): int
  {
    match a
    case Fold => 0
    case Check => 1
    case Call => 1
    case Bet => 2
    case Raise => 2
    case AllIn => 3
    case _ => 4
  }

  /** Does the list hold an option of kind `a`? */
  predicate Offers(r: seq<ActionOption>, a: PlayerAction)
  {
    exists i :: 0 <= i < |r| && r[i].actionType == a
  }

  /** The list `GetLegalActions` builds, from the three amounts it reads. */
  function LegalOptions(playerBet: int, remainingBet: int, tableBet: int): seq<ActionOption>
  {
    var fold := [ActionOption(Fold, false)];
    var matching :=
      if playerBet == tableBet then [ActionOption(Check, false)]
      else if playerBet < tableBet then [ActionOption(Call, false)]
      else [];
    var wager := if tableBet == 0 then ActionOption(Bet, true) else ActionOption(Raise, true);
    var allIn := if remainingBet > 0 then [ActionOption(AllIn, false)] else [];
    fold + matching + [wager] + allIn
  }

  /** `GetLegalActions`: the options of `player` in the hand `ctx`. Neither
      object is changed. */
  function GetLegalActions(player: Player, ctx: GameContext): (r: seq<ActionOption>)
    reads player, ctx
    ensures 2 <= |r| <= 4
    ensures r[0] == ActionOption(Fold, false)
    ensures forall a :: Offers(r, a) <==> Permitted(a, player.currentBet, player.remainingBet, ctx.currentBet)
    ensures forall i :: 0 <= i < |r| ==> (r[i].requiresAmount <==> r[i].actionType == Bet || r[i].actionType == Raise)
    ensures forall i, j :: 0 <= i < j < |r| ==> Tier(r[i].actionType) < Tier(r[j].actionType)
    ensures player.remainingBet > 0 ==> r[|r| - 1].actionType == AllIn
  {
    LegalOptionsMeaning(player.currentBet, player.remainingBet, ctx.currentBet);
    LegalOptions(player.currentBet, player.remainingBet, ctx.currentBet)
  }

  lemma LegalOptionsMeaning(playerBet: int, remainingBet: int, tableBet: int)
    ensures var r := LegalOptions(playerBet, remainingBet, tableBet);
      2 <= |r| <= 4 && r[0] == ActionOption(Fold, false) &&
      (forall a :: Offers(r, a) <==> Permitted(a, playerBet, remainingBet, tableBet)) &&
      (forall i :: 0 <= i < |r| ==> (r[i].requiresAmount <==> r[i].actionType == Bet || r[i].actionType == Raise)) &&
      (forall i, j :: 0 <= i < j < |r| ==> Tier(r[i].actionType) < Tier(r[j].actionType)) &&
      (remainingBet > 0 ==> r[|r| - 1].actionType == AllIn)
  {
    var r := LegalOptions(playerBet, remainingBet, tableBet);
    var wager := if tableBet == 0 then ActionOption(Bet, true) else ActionOption(Raise, true);
    var tail := if remainingBet > 0 then [wager, ActionOption(AllIn, false)] else [wager];
    if playerBet == tableBet {
      assert r == [ActionOption(Fold, false), ActionOption(Check, false)] + tail;
    } else if playerBet < tableBet {
      assert r == [ActionOption(Fold, false), ActionOption(Call, false)] + tail;
    } else {
      assert r == [ActionOption(Fold, false)] + tail;
    }
    forall a | Permitted(a, playerBet, remainingBet, tableBet) ensures Offers(r, a) {
      assert r[|r| - |tail|] == wager;
      if a == AllIn { assert r[|r| - 1].actionType == AllIn; }
      if a == Check || a == Call { assert r[1].actionType == a; }
      if a == Fold { assert r[0].actionType == a; }
    }
  }

  /** Check and call are never offered together, and neither is offered
      when the player has already bet more than the table. */
  lemma CheckCallExclusive(player: Player, ctx: GameContext)
    ensures !(Offers(GetLegalActions(player, ctx), Check) && Offers(GetLegalActions(player, ctx), Call))
    ensures player.currentBet > ctx.currentBet ==>
              !Offers(GetLegalActions(player, ctx), Check) && !Offers(GetLegalActions(player, ctx), Call)
  {
  }

  /** Exactly one of bet and raise is offered. */
  lemma BetXorRaise(player: Player, ctx: GameContext)
    ensures Offers(GetLegalActions(player, ctx), Bet) != Offers(GetLegalActions(player, ctx), Raise)
  {
  }
}
