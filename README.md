# Pokerface rules core in Dafny

This project models the poker rules of the Blazor-Pokerface web application. It covers:

- the 52-card deck and its shuffle (`CardDeck`);
- the deal primitives and the hand evaluator (`GamePlayHelpers`);
- the legal-action rule table (`ActionResolver`);
- the round reset and blind-seat arithmetic of `TableModel` and `GameContext`;
- the seat and session bookkeeping of `GameSessionModel` and `GameSessionService`.

Modules, one concept each:

| module | file | models |
|---|---|---|
| `Wrappers` | wrappers.dfy | `Option`, standing for nullable references |
| `Lists` | lists.dfy | a by-reference .NET `List<T>` (`Add`, `RemoveAt`, `RemoveRange`), plus `Remove`, `IndexOf` and `Take` on sequences |
| `Cards` | cards.dfy | `Card`, ranks 2..14 (ace 14), four suits, the cross-product deck, the shuffle |
| `Enums` | enums.dfy | `BettingRound` (first value `Ante`) and `PlayerAction` |
| `Players` | players.dfy | `PlayerModel` as a class with hole cards changed in place |
| `Dealing` | dealing.dfy | `BurnCard`, `DealPlayerCards`, `DealFlop`, `DealTurn`, `DealRiver` |
| `ValueLists` | value_lists.dfy | LINQ `OrderByDescending`, `Distinct` and `GroupBy` on card values |
| `HandEvaluation` | hand_evaluation.dfy | `EvaluateBestHand` as written |
| `HandProperties` | hand_properties.dfy | what the evaluator's result means: categories, deciding values, tie lists |
| `HandFindings` | hand_findings.dfy | two discrepancies in the evaluator, and a corrected evaluator |
| `CardText` | card_text.dfy | `CardValueToString` and its inverse |
| `Seating` | seating.dfy | C#'s truncating `%` and the dealer and blind seats |
| `Tables` | tables.dfy | `TableModel` and `RestartRound` |
| `GameContexts` | game_context.dfy | `GameContext` and its constructors |
| `ActionResolver` | action_resolver.dfy | `GetLegalActions` |
| `Sessions` | game_session.dfy | `GameSessionModel` |
| `SessionService` | game_session_service.dfy | `GameSessionService` |

## How the source is represented

- **Shared lists.**
  - A list that a helper receives and changes in place is a `MutableList`, which may be null.
  - A list that an object only reassigns is a `seq` field.
  - A list that a helper only reads, and that may be null, is an optional sequence value.
- **Randomness and external calls become parameters.**
  - The shuffle's random keys are a parameter.
  - The player's GUID-derived identifier is a parameter.
  - Whether the database service was supplied is a flag.
- **Exceptions.**
  - An exception that the code raises on purpose is an outcome value (`AddOutcome`, `JoinResult`, `Lookup`).
  - A .NET index error on a short deck, or a division by zero on an empty player list, is excluded by a precondition.
- **Integer width.** The seat arithmetic uses C#'s 32-bit `int`: the sums wrap (`Wrap32`), and `%` truncates toward zero (`CsRem`).

The shown sources declare some fields that the shown code never uses, and use some fields that no shown file declares. The model adds the missing fields:

- `PlayerModel`: `CurrentBet` and `RemainingBet`.
- `TableModel`: `MaxUsers`, `CurrentUsers` and `CurrentPlayers`.
- `GameSessionModel`: `CurrentGame` and `PlayersPending`.

## Model

| member | source | states |
|---|---|---|
| Cards.CrossProduct | Source/Pokerface/Models/CardDeck.cs:12-15 | the deck has \|ranks\|·\|suits\| cards, and a card is in it iff its rank and suit are |
| Cards.CrossProductNoDuplicates | Source/Pokerface/Models/CardDeck.cs:12-15 | the cross product of duplicate-free rank and suit lists has no duplicate card |
| Cards.FullDeckExactlyOnce | Source/Pokerface/Models/CardDeck.cs:12-15 | the unshuffled deck has 52 cards and holds every card exactly once |
| Cards.SortByKeySpec | Source/Pokerface/Models/CardDeck.cs:18 | ordering by the random keys yields a key-sorted permutation of the cards |
| Cards.GenerateShuffledDeck | Source/Pokerface/Models/CardDeck.cs:9-19 | whatever the keys, 52 cards, the same multiset as the full deck, no duplicates, every card present |
| Cards.MixWholeRandomCards | Source/Pokerface/Models/CardDeck.cs:21-25 | taking 52 of the shuffled deck gives that deck itself, so also a permutation of the full deck |
| Dealing.BurnCard | Source/Pokerface/Services/GamePlayHelpers.cs:60-66 | the old deck is the burned top card followed by the new deck; a null deck is untouched |
| Dealing.DealHoleCards | Source/Pokerface/Services/GamePlayHelpers.cs:17-21 | seat i receives deck cards 2i and 2i+1; the deck loses its first 2n cards; bets unchanged |
| Dealing.DealPlayerCards | Source/Pokerface/Services/GamePlayHelpers.cs:9-22 | seat i gets old cards 1+2i and 2+2i, and the deck becomes old[1+2n..]; a null deck or an absent (null) player list changes nothing |
| Dealing.DealFlop | Source/Pokerface/Services/GamePlayHelpers.cs:24-38 | a null deck: no change; otherwise old[1..4] are appended to the community list, and the deck loses 4 cards even when the community list is null; the old deck is the burned card, then the dealt cards, then the new deck; one list passed as both: the three cards move to its end |
| Dealing.DealTurn | Source/Pokerface/Services/GamePlayHelpers.cs:40-48 | either list null: no change; otherwise old[1] is appended and the deck loses 2 cards, with burned, dealt and kept cards making up the old deck |
| Dealing.DealRiver | Source/Pokerface/Services/GamePlayHelpers.cs:50-58 | as the turn, for the river card |
| ValueLists.SortDescending | Source/Pokerface/Services/GamePlayHelpers.cs:70-72 | a descending permutation of the values |
| ValueLists.Distinct | Source/Pokerface/Services/GamePlayHelpers.cs:83 | the same members without repeats; strictly descending for descending input |
| ValueLists.Groups | Source/Pokerface/Services/GamePlayHelpers.cs:73-76 | one group per distinct value with its count, ordered by count and then by value, both descending |
| HandEvaluation.CardValues | Source/Pokerface/Services/GamePlayHelpers.cs:70-72 | the card ranks, sorted descending, as a permutation |
| HandEvaluation.DistinctValues | Source/Pokerface/Services/GamePlayHelpers.cs:83 | strictly descending, with the same members as the ranks |
| HandEvaluation.HandGroups | Source/Pokerface/Services/GamePlayHelpers.cs:73-76 | groups ordered by (count, key) descending, counts equal to occurrences, every value grouped once |
| HandEvaluation.FlushSuit | Source/Pokerface/Services/GamePlayHelpers.cs:78-81 | a suit is returned iff some suit has five or more cards; it has five or more, and it is the suit of the first card whose suit does |
| HandEvaluation.FlushValues | Source/Pokerface/Services/GamePlayHelpers.cs:132-135 | the five highest values of the flush suit, descending; every suited value left out is at most the fifth |
| HandEvaluation.FindStraightHigh | Source/Pokerface/Services/GamePlayHelpers.cs:84-103 | the loop with `break` computes the straight-high function |
| HandEvaluation.Classify | Source/Pokerface/Services/GamePlayHelpers.cs:110-165 | no result exactly when the hand is empty and no straight-flush high is given; otherwise the rank lies in its category's band 100c+2..100c+14 |
| HandEvaluation.ClassifyMade | Source/Pokerface/Services/GamePlayHelpers.cs:118-165 | the rank is in its band and the category is one of 1..8 |
| HandEvaluation.EvaluateBestHand | Source/Pokerface/Services/GamePlayHelpers.cs:68-166 | the method computes the evaluation function; an empty hand has none (the source throws) |
| HandProperties.ScanStraightSpec | Source/Pokerface/Services/GamePlayHelpers.cs:86-93 | the scan returns the top of a five-value run, and the first such top from position i |
| HandProperties.ScanFindsHighestRun | Source/Pokerface/Services/GamePlayHelpers.cs:86-93 | the scan finds a run iff one exists, and then the highest run |
| HandProperties.StraightHighMeaning | Source/Pokerface/Services/GamePlayHelpers.cs:84-105 | no straight iff -1; a wheel forces 5; otherwise the highest run |
| HandProperties.StraightOfCards | Source/Pokerface/Services/GamePlayHelpers.cs:83-105 | straight detection on the distinct values agrees with the runs among the card ranks |
| HandProperties.MaxOccurrence | Source/Pokerface/Services/GamePlayHelpers.cs:73-74 | the largest number of cards sharing a value, reached by some value |
| HandProperties.GroupsMeaning | Source/Pokerface/Services/GamePlayHelpers.cs:73-76 | the first group has the largest count and the highest value among those; every other value occurs at most as often as the second group |
| HandProperties.SecondGroupMeaning | Source/Pokerface/Services/GamePlayHelpers.cs:124 | a second group of count ≥ b exists iff two different values occur max and ≥ b times |
| HandProperties.FlushMeaning | Source/Pokerface/Services/GamePlayHelpers.cs:78-81 | the flush test holds iff some suit has five cards |
| HandProperties.EvaluateCategory | Source/Pokerface/Services/GamePlayHelpers.cs:110-165 | the category equals the reference classification built from counts, flush and straight |
| HandProperties.GroupDecidingValue | Source/Pokerface/Services/GamePlayHelpers.cs:118-165 | for the group categories, the deciding value is the highest value with the largest count |
| HandProperties.FullHouseParts | Source/Pokerface/Services/GamePlayHelpers.cs:124-128 | a full house is trips value over pair value, tie list [pair, trips] |
| HandProperties.GroupTieList | Source/Pokerface/Services/GamePlayHelpers.cs:118-165 | for quads, trips, pairs and high card, the tie list is every value once, by count and then value |
| HandProperties.FlushParts | Source/Pokerface/Services/GamePlayHelpers.cs:130-138 | a flush ranks 600 + the top suited card, with the five best suited values as tie list |
| HandProperties.StraightParts | Source/Pokerface/Services/GamePlayHelpers.cs:110-144 | straights are decided by straightHigh; Royal Flush iff category 9 with an ace high |
| HandProperties.RankOrdersCategories | Source/Pokerface/Services/GamePlayHelpers.cs:115-165 | a lower category always has a lower rank |
| HandFindings.WheelOverridesHigherStraight | Source/Pokerface/Services/GamePlayHelpers.cs:95-103 | any hand with a wheel and a six-high straight, no flush and no trips ranks 505 |
| HandFindings.WheelOverrideExample | Source/Pokerface/Services/GamePlayHelpers.cs:95-103 | the seven cards A♣ 2♦ 3♥ 4♠ 5♣ 6♦ 9♥ hold a six-high straight yet rank 505 |
| HandFindings.UnsuitedStraightFlushExample | Source/Pokerface/Services/GamePlayHelpers.cs:110-116 | the seven cards 2♥ 3♥ 7♥ 8♥ 9♥ 5♣ 6♣ rank 909 though the hearts hold no straight |
| HandFindings.BestStraightHigh | Source/Pokerface/Services/GamePlayHelpers.cs:84-103 | corrected straight high: -1, 5 or a present value |
| HandFindings.BestStraightHighMeaning | Source/Pokerface/Services/GamePlayHelpers.cs:84-103 | corrected: -1 iff no straight, otherwise the top of a run, at least every run's top, at least 5 with a wheel |
| HandFindings.EvaluateIntended | Source/Pokerface/Services/GamePlayHelpers.cs:68-166 | the corrected evaluator returns none only for an empty hand, and ranks in band |
| HandFindings.IntendedStraightFlush | Source/Pokerface/Services/GamePlayHelpers.cs:110-116 | corrected: category 9 iff the flush suit itself holds a straight |
| HandFindings.IntendedStraight | Source/Pokerface/Services/GamePlayHelpers.cs:140-144 | corrected: a straight ranks by its highest run |
| HandFindings.IntendedWheelExample | Source/Pokerface/Services/GamePlayHelpers.cs:95-103 | corrected: the hand above ranks 506 |
| HandFindings.IntendedFlushExample | Source/Pokerface/Services/GamePlayHelpers.cs:130-138 | corrected: the hearts hand above ranks 609, a nine-high flush |
| CardText.IntToString | Source/Pokerface/Services/GamePlayHelpers.cs:178 | decimal digits, with a minus sign for negative values |
| CardText.CardValueToString | Source/Pokerface/Services/GamePlayHelpers.cs:170-180 | 11..14 give J, Q, K, A; any other value gives its decimal text |
| CardText.DecimalRoundTrip | Source/Pokerface/Services/GamePlayHelpers.cs:178 | reading the decimal text back gives the number |
| CardText.CardValueRoundTrip | Source/Pokerface/Services/GamePlayHelpers.cs:170-180 | reading the card-value text back gives the value |
| CardText.CardValueToStringInjective | Source/Pokerface/Services/GamePlayHelpers.cs:170-180 | different values have different texts |
| Seating.CsRem | Source/Pokerface/Models/TableModel.cs:77-79 | C#'s remainder: below n in magnitude, with the dividend's sign |
| Seating.CsDivision | Source/Pokerface/Models/TableModel.cs:77-79 | C#'s quotient times n plus its remainder gives back the dividend |
| Seating.Wrap32 | Source/Pokerface/Models/TableModel.cs:77 | unchecked `int` addition: a sum in range is kept, and `int.MaxValue + 1` becomes `int.MinValue` |
| Seating.Wrap32Congruent | Source/Pokerface/Models/TableModel.cs:77 | the wrapped sum differs from the true sum by a multiple of 2^32 |
| Seating.BlindSeats | Source/Pokerface/Models/TableModel.cs:77-79 | all three seats lie in (-n, n); they lie in [0, n) when the previous dealer is from -1 to below `int.MaxValue` and n is below `int.MaxValue` |
| Seating.BlindSeatsInRange | Source/Pokerface/Models/TableModel.cs:77-79 | from a previous dealer ≥ -1 where no sum wraps, the seats are (last+1) mod n and dealer+1, dealer+2 mod n, all valid indices |
| Seating.DealerWrapsAtIntMax | Source/Pokerface/Models/TableModel.cs:77-79 | with three players and a previous dealer of `int.MaxValue`, the seats are -2, -1 and 0 |
| Seating.HeadsUpBigBlindIsDealer | Source/Pokerface/Models/TableModel.cs:77-79 | with two players the big blind is the dealer |
| Seating.ThreeDistinctSeats | Source/Pokerface/Models/TableModel.cs:77-79 | with three or more players the three seats differ |
| Seating.NegativeDealerIndex | Source/Pokerface/Models/TableModel.cs:77 | with a previous dealer below -1, the dealer index is negative exactly when last + 1 is not a multiple of the player count |
| Seating.NegativeDealerExample | Source/Pokerface/Models/TableModel.cs:77 | with three players, a previous dealer of -5 gives dealer -1, and -4 gives dealer 0 |
| Tables.TableModel.constructor | Source/Pokerface/Models/TableModel.cs:11-72 | the declared defaults: ante 5, blinds 5/10, bets 5..10000, empty lists, round Ante |
| Tables.TableModel.RestartRound | Source/Pokerface/Models/TableModel.cs:73-87 | players copied; seats from the blind arithmetic, valid indices unless a sum wraps; pot, bet and current player 0; round Ante; flags reset; the frame leaves configuration and pending list untouched; validity kept |
| GameContexts.GameContext.constructor | Source/Pokerface/Models/GameContext.cs:7-27 | every field at its declared default |
| GameContexts.GameContext.FromPlayers | Source/Pokerface/Models/GameContext.cs:28-36 | players copied, round locked, no winners, seats from the blind arithmetic (valid indices unless a sum wraps), other fields at defaults |
| ActionResolver.GetLegalActions | Source/Pokerface/Services/ActionResolver.cs:8-42 | 2..4 options, Fold first; an action is offered iff the rule table permits it; an amount is asked exactly for Bet and Raise; options in tier order; AllIn last when offered |
| ActionResolver.CheckCallExclusive | Source/Pokerface/Services/ActionResolver.cs:17-24 | never both Check and Call, and neither when the player's bet exceeds the table's |
| ActionResolver.BetXorRaise | Source/Pokerface/Services/ActionResolver.cs:26-33 | exactly one of Bet and Raise |
| Players.Player.constructor | Source/Pokerface/Models/PlayerModel.cs:12-21 | identifier, chair and name as given; no hole cards; both bets 0 |
| Sessions.FirstWithName | Source/Pokerface/Models/GameSessionModel.cs:23-26 | none iff no player has the name; otherwise the first player with exactly that name |
| Sessions.GameSessionModel.GetPlayerByName | Source/Pokerface/Models/GameSessionModel.cs:23-26 | a found player is seated and has that name; none iff nobody has it; otherwise it is the first seated player with that name |
| Sessions.ShuffledCardSet | Source/Pokerface/Models/GameSessionModel.cs:15 | a new list holding 52 distinct cards, every card |
| Sessions.GameSessionModel.constructor | Source/Pokerface/Models/GameSessionModel.cs:11-21 | no players; a new default table (ante 5, blinds 5/10, bets 5..10000, no users, round Ante, valid); a new list holding a full shuffled deck |
| Sessions.GameSessionModel.AddPlayer | Source/Pokerface/Models/GameSessionModel.cs:28-43 | no database service: error, no change; count above the maximum: error, no change; otherwise appended and the user count follows |
| Sessions.OverfillSession | Source/Pokerface/Models/GameSessionModel.cs:33-38 | a session already at capacity still admits a player, ending one above the maximum |
| Sessions.GameSessionModel.AddPlayerWithinCapacity | Source/Pokerface/Models/GameSessionModel.cs:33-38 | corrected guard: a table at capacity refuses, so the capacity is kept |
| Sessions.GameSessionModel.StartGame | Source/Pokerface/Models/GameSessionModel.cs:45-55 | player i gets cards 2i and 2i+1 with no burn; the deck loses its first 2n cards; only the players' hole cards are written, so their bets stay the same |
| Sessions.GameSessionModel.ForTable | Source/Pokerface/Services/GameSessionService.cs:35 | a session for the table, with an empty pending list, a new default table and a new full shuffled deck |
| SessionService.FirstStop | Source/Pokerface/Services/GameSessionService.cs:20-30 | the first session where the search stops, or -1 when none does |
| SessionService.GameSessionService.GetGameSessionById | Source/Pokerface/Services/GameSessionService.cs:20-23 | the first session with that game id; not found iff every game exists and differs; a game-less session met first makes it throw |
| SessionService.Chairs | Source/Pokerface/Services/GameSessionService.cs:60 | the pending players' chairs, in order |
| SessionService.FreeChair | Source/Pokerface/Services/GameSessionService.cs:58-61 | the smallest chair in 1..8 that nobody holds; -1 iff all are held |
| SessionService.FreeChairExists | Source/Pokerface/Services/GameSessionService.cs:58-61 | with fewer than eight pending players a chair is free |
| SessionService.EqualsIgnoreCaseMeaning | Source/Pokerface/Services/GameSessionService.cs:49 | names match iff they agree letter by letter after upper-casing |
| SessionService.EqualsIgnoreCaseOrdinal | Source/Pokerface/Services/GameSessionService.cs:49 | equal names match; names without lower-case letters match exactly when they are equal |
| SessionService.RemoveKeepsDistinctTables | Source/Pokerface/Services/GameSessionService.cs:91 | removing a session keeps one session per table |
| SessionService.GameSessionService.constructor | Source/Pokerface/Services/GameSessionService.cs:13-18 | no sessions |
| SessionService.GameSessionService.JoinGameSessionAsync | Source/Pokerface/Services/GameSessionService.cs:26-69 | new table: one session appended, with the player on chair 1; full table or taken name: refused, no change; null pending list: exception; otherwise appended on the lowest free chair; other sessions untouched; one session per table kept |
| SessionService.GameSessionService.RemoveSession | Source/Pokerface/Services/GameSessionService.cs:83-96 | null session or game: no change; otherwise player count 0 and exactly that session removed, and no longer listed; only the table's player count may change |
| SessionService.GameSessionService.RemovePlayerFromSessionAsync | Source/Pokerface/Services/GameSessionService.cs:72-81 | the player leaves the pending list; an emptied list removes the session, otherwise the session list and the table's player count are kept; only the player count may change on the table |

## Left out

- Database saving, the `CurrentTableUsersChanged` events, `DisposeAsync` and async execution. These are I/O and notification and have no effect on the modelled state.
- The card presentation and image providers, the database services, the table service, the controllers, the program wiring and the browser scripts. They are outside the rules core.
- The betting engine: turn rotation, posting blinds and antes, the pot and settlement. No shown code implements it.
- `System.Random` in the shuffle. The random keys are a parameter, and the model states only that the result is a permutation of the full deck.
- The player identifier. The source derives it from a GUID hash and negates a negative value, which leaves `int.MinValue` negative. Here the identifier is a parameter.
- The hand-name text, `RankToName` and `ActionOption.Label`. Hand names are a structured `HandName` value; only the category label string is kept.
- `Sessions.GameSessionModel.constructor`: states that the deck is a permutation of the full deck, not which permutation the keys select. The exact deck is not stated there.
- `SessionService.EqualsIgnoreCaseMeaning`: folds only ASCII letters. The culture-independent upper-casing of other characters is not modelled.
- `SessionService.GameSessionService.JoinGameSessionAsync`: the service is written against a version of the session class that has `CurrentGame` and `PlayersPending`, which `GameSessionModel.cs` does not declare. Its `session.AddPlayer` call is therefore modelled as appending to the pending list. The database-null and capacity checks of `Sessions.GameSessionModel.AddPlayer` are not applied on this path.
- `SessionService.GameSessionService.RemovePlayerFromSessionAsync`: `session.RemovePlayer` is not part of this model. It is taken as removing the first occurrence of the player from the pending list.
- `Sessions.GameSessionModel.ForTable`: the two-argument constructor that the service calls is not declared in `GameSessionModel.cs`. It is taken to set the current game and an empty pending list, on top of what the declared constructor does.
- The `TableModel` identifier and name are set once at construction, because no modelled code changes them.
- Decks too short for a deal, and an empty player list for the seat arithmetic, are preconditions. The source throws in both cases.

## Findings

| source | as written | input that shows it | evidently intended | confidence | as-written member | corrected member |
|---|---|---|---|---|---|---|
| Source/Pokerface/Services/GamePlayHelpers.cs:95-103 | the wheel test sets `straightHigh = 5` even after the scan found a higher straight | A♣ 2♦ 3♥ 4♠ 5♣ 6♦ 9♥: a six-high straight, ranked 505 | the highest straight counts: 506 | not executed | HandFindings.WheelOverrideExample | HandFindings.BestStraightHighMeaning |
| Source/Pokerface/Services/GamePlayHelpers.cs:110-116 | a straight flush is declared when there is a flush and a straight anywhere in the hand | 2♥ 3♥ 7♥ 8♥ 9♥ 5♣ 6♣: ranked 909 though the hearts hold no straight | the straight must lie within the flush suit: a nine-high flush, 609 | not executed | HandFindings.UnsuitedStraightFlushExample | HandFindings.IntendedStraightFlush |
| Source/Pokerface/Models/GameSessionModel.cs:33-34 | the guard `Players.Count > MaxUsers` admits a player when the count equals the maximum | a session with `MaxUsers` players: one more is added, leaving MaxUsers+1 | refuse at `Players.Count >= MaxUsers`, so the count never exceeds the maximum | not executed | Sessions.OverfillSession | Sessions.GameSessionModel.AddPlayerWithinCapacity |
