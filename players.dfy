/** A seated player (`PlayerModel`). */
module Players {

  import opened Wrappers
  import opened Cards

  /** Identity, chair and name are set once by the constructor; the hole
      cards are assigned in place when cards are dealt. `currentBet` and
      `remainingBet` are read by the action resolver although the player
      class as shown does not declare them; they are added here. */
  class Player {
    const id: int
    const chair: int
    const name: string
    var card1: Option<Card>
    var card2: Option<Card>
    var currentBet: int
    var remainingBet: int

    /** `new PlayerModel(chair, name)`. The identifier, derived from a random
        GUID in the source, is an opaque parameter here. */
    constructor (id: int, chair: int, name: string)
      ensures this.id == id && this.chair == chair && this.name == name
      ensures card1 == None && card2 == None
      ensures currentBet == 0 && remainingBet == 0
    {
      this.id := id;
      this.chair := chair;
      this.name := name;
      card1, card2 := None, None;
      currentBet, remainingBet := 0, 0;
    }
  }
}
