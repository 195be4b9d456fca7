/** `GameContext`: the state of a hand as the action resolver sees it. */
module GameContexts {

  import opened Enums
  import opened Players
  import opened Seating

  class GameContext {
    var currentBet: int
    var smallBlind: int
    var bigBlind: int
    var minBet: int
    var maxBet: int
    var pot: int
    var dealerIndex: int
    var smallBlindIndex: int
    var bigBlindIndex: int
    var roundLocked: bool
    var roundFinished: bool
    var currentPlayer: int
    var currentRound: BettingRound
    var players: seq<Player>
    var theWinners: seq<Player>

    /** The parameterless constructor: every field at its declared default. */
    constructor ()
      ensures currentBet == 0 && smallBlind == 5 && bigBlind == 10 && minBet == 5 && maxBet == 10000
      ensures pot == 0 && dealerIndex == 0 && smallBlindIndex == 0 && bigBlindIndex == 0
      ensures !roundLocked && !roundFinished && currentPlayer == 0 && currentRound == Ante
      ensures players == [] && theWinners == []
    {
      currentBet, smallBlind, bigBlind, minBet, maxBet := 0, 5, 10, 5, 10000;
      pot, dealerIndex, smallBlindIndex, bigBlindIndex := 0, 0, 0, 0;
      roundLocked, roundFinished, currentPlayer, currentRound := false, false, 0, Ante;
      players, theWinners := [], [];
    }

    /** `GameContext(newPlayers, lastDealerIndex)`: a copy of the players,
        the round locked, the button one seat on from `lastDealerIndex` and
        the blinds after it; the other fields keep their defaults. An empty
        player list makes the source divide by zero; it is excluded. */
    constructor FromPlayers(newPlayers: seq<Player>, lastDealerIndex: Int32)
      requires 0 < |newPlayers| <= IntMax
      ensures players == newPlayers && roundLocked && theWinners == []
      ensures Seats(dealerIndex, smallBlindIndex, bigBlindIndex) == BlindSeats(|newPlayers|, lastDealerIndex)
      ensures -1 <= lastDealerIndex < IntMax && |newPlayers| < IntMax ==>
                0 <= dealerIndex < |players| && 0 <= smallBlindIndex < |players| && 0 <= bigBlindIndex < |players|
      ensures currentBet == 0 && smallBlind == 5 && bigBlind == 10 && minBet == 5 && maxBet == 10000
      ensures pot == 0 && !roundFinished && currentPlayer == 0 && currentRound == Ante
    {
      currentBet, smallBlind, bigBlind, minBet, maxBet := 0, 5, 10, 5, 10000;
      pot, roundFinished, currentPlayer, currentRound := 0, false, 0, Ante;
      players := newPlayers;
      roundLocked := true;
      var seats := BlindSeats(|newPlayers|, lastDealerIndex);
      dealerIndex := seats.dealer;
      smallBlindIndex := seats.smallBlind;
      bigBlindIndex := seats.bigBlind;
      theWinners := [];
    }
  }
}
