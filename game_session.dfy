/** `GameSessionModel`: one running game, with its table, its seated players
    and its deck. */
module Sessions {

  import opened Wrappers
  import opened Lists
  import opened Cards
  import opened Players
  import Enums
  import Tables
  import Dealing

  /** How `AddPlayer` ends: the player is added, or one of its two
      exceptions is thrown before anything changes. */
  datatype AddOutcome = Added | DbServiceMissing | TooManyPlayers

  /** The position of the first player in `ps` whose name is exactly
      `name`, or -1. */
  function FirstIndexWithName(ps: seq<Player>, name: string): (i: int)
    ensures -1 <= i < |ps|
    ensures i == -1 <==> forall j :: 0 <= j < |ps| ==> ps[j].name != name
    ensures i >= 0 ==> ps[i].name == name && forall j :: 0 <= j < i ==> ps[j].name != name
  {
    if |ps| == 0 then -1
    else if ps[0].name == name then 0
    else
      var j := FirstIndexWithName(ps[1..], name);
      assert forall k :: 0 < k < |ps| ==> ps[k] == ps[1..][k - 1];
      if j == -1 then -1 else j + 1
  }

  /** LINQ `Where(p => p.Name == name).FirstOrDefault()`: the first player
      whose name is exactly `name`, or nothing. */
  function FirstWithName(ps: seq<Player>, name: string): (r: Option<Player>)
    ensures r.None? <==> forall i :: 0 <= i < |ps| ==> ps[i].name != name
    ensures r.Some? ==> exists i :: 0 <= i < |ps| && ps[i] == r.value && r.value.name == name &&
                          forall j :: 0 <= j < i ==> ps[j].name != name
  {
    var i := FirstIndexWithName(ps, name);
    if i == -1 then None else Some(ps[i])
  }

  /** The `CardSet` initializer `CardDeck.MixWholeRandomCards()`: a new list
      holding the deck shuffled by `keys`, which is a permutation of the
      full deck. */
  method ShuffledCardSet(keys: seq<int>) returns (d: MutableList<Card>)
    requires |keys| == 52
    ensures fresh(d)
    ensures |d.items| == 52 && NoDuplicates(d.items) && forall c: Card :: c in d.items
  {
    d := new MutableList(MixWholeRandomCards(keys));
  }

  class GameSessionModel {
    /** Whether the database service was supplied (it is nullable in the
        source). Saving the table to the database is not modelled. */
    const hasDbService: bool
    var id: int
    var gameTable: Tables.TableModel
    var players: seq<Player>
    var cardSet: MutableList<Card>
    // Used by the session service although the class as shown does not
    // declare them; added here. A null pending list is `None`.
    var currentGame: Tables.TableModel?
    var playersPending: Option<seq<Player>>

    /** `new GameSessionModel(dbTableService)`: a default table, no
        players, and a full deck shuffled by the random `keys`. */
    constructor (hasDbService: bool, keys: seq<int>)
      requires |keys| == 52
      ensures this.hasDbService == hasDbService && id == 0 && players == []
      ensures fresh(gameTable) && fresh(cardSet)
      ensures gameTable.maxUsers == 0 && gameTable.currentUsers == 0 && gameTable.currentPlayers == 0
      ensures gameTable.ante == 5 && gameTable.smallBlind == 5 && gameTable.bigBlind == 10
      ensures gameTable.minBet == 5 && gameTable.maxBet == 10000 && gameTable.Valid()
      ensures gameTable.players == [] && gameTable.playersPending == [] && gameTable.currentRound == Enums.Ante
      ensures |cardSet.items| == 52 && NoDuplicates(cardSet.items) && forall c: Card :: c in cardSet.items
      ensures currentGame == null && playersPending == None
    {
      this.hasDbService := hasDbService;
      id := 0;
      var defaultTable := new Tables.TableModel(0, "", 0);
      var deck := ShuffledCardSet(keys);
      gameTable := defaultTable;
      players := [];
      cardSet := deck;
      currentGame := null;
      playersPending := None;
    }

    /** `new GameSessionModel(tableService, table)`, as the session service
        calls it: like the constructor above, with a database service, the
        given table as the current game and an empty pending list. */
    constructor ForTable(table: Tables.TableModel, keys: seq<int>)
      requires |keys| == 52
      ensures hasDbService && id == 0 && players == []
      ensures fresh(gameTable) && fresh(cardSet)
      ensures gameTable.maxUsers == 0 && gameTable.currentUsers == 0 && gameTable.currentPlayers == 0
      ensures gameTable.ante == 5 && gameTable.smallBlind == 5 && gameTable.bigBlind == 10
      ensures gameTable.minBet == 5 && gameTable.maxBet == 10000 && gameTable.Valid()
      ensures gameTable.players == [] && gameTable.playersPending == [] && gameTable.currentRound == Enums.Ante
      ensures |cardSet.items| == 52 && NoDuplicates(cardSet.items) && forall c: Card :: c in cardSet.items
      ensures currentGame == table && playersPending == Some([])
    {
      hasDbService := true;
      id := 0;
      var defaultTable := new Tables.TableModel(0, "", 0);
      var deck := ShuffledCardSet(keys);
      gameTable := defaultTable;
      players := [];
      cardSet := deck;
      currentGame := table;
      playersPending := Some([]);
    }

    /** `GetPlayerByName`: the first seated player with exactly this name. */
    function GetPlayerByName(name: string): (r: Option<Player>)
      reads this
      ensures r.None? <==> forall i :: 0 <= i < |players| ==> players[i].name != name
      ensures r.Some? ==> r.value in players && r.value.name == name
      ensures r == FirstWithName(players, name)
    {
      FirstWithName(players, name)
    }

    /** `AddPlayer`, as written: without a database service, or when the
        player count already EXCEEDS the table's maximum, nothing changes;
        otherwise the player is appended and the table's user count follows
        the list. The strict test lets the list reach one more than the
        maximum. */
    method AddPlayer(player: Player) returns (outcome: AddOutcome)
      modifies this`players, gameTable`currentUsers
      ensures !hasDbService ==> outcome == DbServiceMissing && players == old(players)
      ensures hasDbService && |old(players)| > gameTable.maxUsers ==>
                outcome == TooManyPlayers && players == old(players)
      ensures outcome != Added ==> gameTable.currentUsers == old(gameTable.currentUsers)
      ensures hasDbService && |old(players)| <= gameTable.maxUsers ==>
                outcome == Added && players == old(players) + [player] && gameTable.currentUsers == |players|
    {
      if !hasDbService {
        return DbServiceMissing;
      }
      if |players| > gameTable.maxUsers {
        return TooManyPlayers;
      }
      players := players + [player];
      gameTable.currentUsers := |players|;
      outcome := Added;
    }

    /** No more players are seated than the table allows. */
    predicate WithinCapacity()
      reads this, gameTable
    {
      |players| <= gameTable.maxUsers
    }

    /** `AddPlayer` with the capacity test the exception message states
        ("cannot add more players than the maximum"): a full table refuses
        the player, so the capacity is never exceeded. */
    method AddPlayerWithinCapacity(player: Player) returns (outcome: AddOutcome)
      modifies this`players, gameTable`currentUsers
      ensures old(WithinCapacity()) ==> WithinCapacity()
      ensures !hasDbService ==> outcome == DbServiceMissing && players == old(players)
      ensures hasDbService && |old(players)| >= gameTable.maxUsers ==>
                outcome == TooManyPlayers && players == old(players)
      ensures outcome != Added ==> gameTable.currentUsers == old(gameTable.currentUsers)
      ensures hasDbService && |old(players)| < gameTable.maxUsers ==>
                outcome == Added && players == old(players) + [player] && gameTable.currentUsers == |players|
    {
      if !hasDbService {
        return DbServiceMissing;
      }
      if |players| >= gameTable.maxUsers {
        return TooManyPlayers;
      }
      players := players + [player];
      gameTable.currentUsers := |players|;
      outcome := Added;
    }

    /** `StartGame`: every seated player, in order, takes the next two
        cards of the deck; no card is burned. The deck must hold two cards
        per player (a shorter one makes .NET throw). */
    method StartGame()
      requires |cardSet.items| >= 2 * |players|
      modifies cardSet, players`card1, players`card2
      ensures cardSet.items == old(cardSet.items)[2 * |players|..]
      ensures Dealing.HoleCardsDealt(players, old(cardSet.items), |players|)
      ensures forall p :: p in players ==>
                p.currentBet == old(p.currentBet) && p.remainingBet == old(p.remainingBet)
    {
      Dealing.DealHoleCards(cardSet, players);
    }
  }

  /** A session whose player count equals its table's capacity still
      admits a player under the as-written `AddPlayer`, which leaves one
      player more seated than the maximum. */
  method OverfillSession(s: GameSessionModel, p: Player)
    requires s.hasDbService && |s.players| == s.gameTable.maxUsers
    modifies s, s.gameTable
    ensures |s.players| == s.gameTable.maxUsers + 1
  {
    var outcome := s.AddPlayer(p);
  }
}
