/** The betting-round and player-action enumerations. */
module Enums {

  /** The betting rounds in declaration order; `Ante` is the first, and so
      the default, value. */
  datatype BettingRound = Ante | SmallBlind | BigBlind | Flop | Turn | River | Showdown

  datatype PlayerAction =
    | None
    | Fold | Check | Call
    | Bet | Raise | ReRaise
    | AllIn
    | PostSmallBlind | PostBigBlind | PostAnte
    | SitOut | SitIn | Timeout
}
