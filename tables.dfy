/** `TableModel`: a table's configuration, stored in the database, and the
    state of the hand being played at it. */
module Tables {

  import opened Enums
  import opened Players
  import opened Seating

  /** `TableModel.MaxPlayers`: seats per table. */
  const MaxPlayers: int := 8

  class TableModel {
    // Configuration. Identifier and name are fixed once the table exists.
    const id: int
    const name: string
    var ante: int
    var smallBlind: int
    var bigBlind: int
    var minBet: int
    var maxBet: int
    // Read and written by the session code although the class as shown
    // does not declare them; added here.
    var maxUsers: int
    var currentUsers: int
    var currentPlayers: int

    // State of the hand.
    var playersPending: seq<Player>
    var players: seq<Player>
    var theWinners: seq<Player>
    var currentPlayer: int
    var currentRound: BettingRound
    var currentBet: int
    var pot: int
    var dealerIndex: int
    var smallBlindIndex: int
    var bigBlindIndex: int
    var roundLocked: bool
    var roundFinished: bool
    var playersGotCards: bool

    /** The configuration values are declared non-negative. */
    predicate Valid()
      reads this
    {
      ante >= 0 && smallBlind >= 0 && bigBlind >= 0 && minBet >= 0 && maxBet >= 0
    }

    /** A table with the declared defaults: ante 5, blinds 5 and 10, bets
        between 5 and 10000, no players, and the first betting round. */
    constructor (id: int, name: string, maxUsers: int)
      ensures this.id == id && this.name == name && this.maxUsers == maxUsers
      ensures ante == 5 && smallBlind == 5 && bigBlind == 10 && minBet == 5 && maxBet == 10000
      ensures currentUsers == 0 && currentPlayers == 0
      ensures playersPending == [] && players == [] && theWinners == []
      ensures currentPlayer == 0 && currentRound == Ante && currentBet == 0 && pot == 0
      ensures dealerIndex == 0 && smallBlindIndex == 0 && bigBlindIndex == 0
      ensures !roundLocked && !roundFinished && !playersGotCards
      ensures Valid()
    {
      this.id := id;
      this.name := name;
      this.maxUsers := maxUsers;
      ante, smallBlind, bigBlind, minBet, maxBet := 5, 5, 10, 5, 10000;
      currentUsers, currentPlayers := 0, 0;
      playersPending, players, theWinners := [], [], [];
      currentPlayer, currentRound, currentBet, pot := 0, Ante, 0, 0;
      dealerIndex, smallBlindIndex, bigBlindIndex := 0, 0, 0;
      roundLocked, roundFinished, playersGotCards := false, false, false;
    }

    /** Starts a new hand with `newPlayers`: the button moves one seat on
        from `lastDealerIndex`, the blinds follow it, and the betting state
        is cleared. An empty player list makes the source divide by zero;
        it is excluded. */
    method RestartRound(newPlayers: seq<Player>, lastDealerIndex: Int32)
      requires 0 < |newPlayers| <= IntMax
      modifies this`players, this`roundLocked, this`roundFinished, this`playersGotCards
      modifies this`dealerIndex, this`smallBlindIndex, this`bigBlindIndex
      modifies this`theWinners, this`currentRound, this`pot, this`currentBet, this`currentPlayer
      ensures players == newPlayers
      ensures roundLocked && !roundFinished && !playersGotCards
      ensures Seats(dealerIndex, smallBlindIndex, bigBlindIndex) == BlindSeats(|newPlayers|, lastDealerIndex)
      ensures -1 <= lastDealerIndex < IntMax && |newPlayers| < IntMax ==>
                0 <= dealerIndex < |players| && 0 <= smallBlindIndex < |players| && 0 <= bigBlindIndex < |players|
      ensures theWinners == [] && currentRound == Ante
      ensures pot == 0 && currentBet == 0 && currentPlayer == 0
      ensures old(Valid()) ==> Valid()
    {
      var seats := BlindSeats(|newPlayers|, lastDealerIndex);
      players, roundLocked := newPlayers, true;
      dealerIndex, smallBlindIndex, bigBlindIndex := seats.dealer, seats.smallBlind, seats.bigBlind;
      theWinners, currentRound, pot, currentBet := [], Ante, 0, 0;
      roundFinished, currentPlayer, playersGotCards := false, 0, false;
    }
  }
}
