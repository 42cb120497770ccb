# UNO game engine: a Dafny model

This project models the rule engine of a multiplayer UNO web game together with
the two database tables it drives. The parts are:

- **The card catalog** (`Cards`). The migration that fills the `cards` table: 4 colours × (one zero plus two each
  of one…nine, skip, swap and plus_two), plus four black wildcards and four black plus_fours. The nested insertion
  loops are `Cards.BuildCatalog` / `Cards.InsertCards`. The model proves they produce exactly the 108 cards the
  rules call for.
- **The pure rules** (`Rules`):
  - `validateCardPlay` as a function;
  - `calculateCardEffects` as a method over the same local variables, proved equal to the specification function
    `EffectsOf`;
  - `calculateNextPlayer` as a method with the source's normalising `while` loop, proved equal to
    `NextIndex`, the Euclidean-modulo specification.
- **The `game_cards` table** (`GameCards`).
  - Every physical card of a game is a `Row(id, gameId, cardId, owner, order)`. Owner 0 is the deck, -1 the
    discard pile and a positive id a player.
  - The SQL reads are functions on the row sequence: DRAW_CARDS, PLAYER_HANDS (a join with the catalog), TOP_DISCARD.
  - The UPDATE statements are value functions (`Deal`, `InitialDiscardRows`, `MoveToDiscard`), used by the
    methods of the class `CardTable`. The class holds the rows and the next serial id.
  - The `playerHands` reduce is the loop `GroupHands`.
- **The `games` row** (`Games`).
  - A class `GameRecord` with the six columns the service uses. Each UPDATE statement is a method that changes
    exactly the columns its SET clause names.
  - A SELECT is a map from the selected columns to JavaScript values. A column the query did not select reads as
    `undefined`, distinct from SQL `NULL`.
- **The service** (`GameService`).
  - `start`, `playCard`, `drawCard` and the `get` snapshot are sequential methods over a `CardTable` and a
    `GameRecord`.
  - The players of the game are a sequence of user ids in join order (`game_players` ordered by id).

Shared helpers live in `Wrappers` (`Option`, `Result`) and `Errors`. `Errors` holds the exceptions the source
throws, and `NoRows`, which stands for pg-promise's `many`/`one` failing on an empty result.

Where the service does something its documentation does not say, the model follows the code:

- A black colour is refused only when UPDATE_GAME_STATE tries to store it, again after the card was discarded.
- A wild card played without a chosen colour is refused only after `moveCardToDiscard` has run. The card stays on
  the discard pile and the game record is untouched.
- In a two-player game a swap both flips the direction and skips one seat, so the same player moves again.
- `drawCard` has no winner check.
- When the deck holds fewer cards than the pending count, `drawCard` deals only the cards that are left. It still
  clears the pending count and passes the turn, and no error is raised unless the deck is empty
  (`GameCards.DrawCardsQuery` returns min(limit, deck size) rows). Its reply's `count` is the number asked for,
  not the number dealt.
- `start` checks neither the lobby state nor the number of players. An empty player list or an empty deck makes it
  fail after the deck has been created.
- `setWinner` records only the winner. Its SQL is not defined anywhere, so the game state is not set to completed.
- An empty discard pile makes `validateCardPlay` read a property of `undefined`. It is modelled as the refusal
  `NoTopCard`.

## Model

| member | source | states |
|---|---|---|
| Cards.EnumsAsDeclared | migrations/1762486014302_create-cards-table.ts:6-13 | exactly 5 colours and 15 symbols; every value of each enum is listed; distinct values have distinct names |
| Cards.PairsCounts | migrations/1762486014302_create-cards-table.ts:39-43 | for distinct symbols, the inner loop makes each listed symbol of the colour exactly twice and no other card |
| Cards.DoubledSymbols | migrations/1762486014302_create-cards-table.ts:32-40 | `symbols.slice(1)` repeats no symbol and holds exactly the symbols other than zero, plus_four and wildcard |
| Cards.ColourBlocksCounts | migrations/1762486014302_create-cards-table.ts:34-44 | the colour loop makes 25 cards per colour: one zero and two of each other coloured symbol, nothing in a colour not listed |
| Cards.WildsCounts | migrations/1762486014302_create-cards-table.ts:46-50 | k rounds make exactly k black wildcards and k black plus_fours and nothing else |
| Cards.CatalogComposition | migrations/1762486014302_create-cards-table.ts:30-50 | the catalog has 4 × (1 + 24) + 8 = 108 cards, and every card occurs exactly as often as the rules expect |
| Cards.Catalog | migrations/1762486014302_create-cards-table.ts:30-50 | (definition) the cards the migration inserts, in insertion order: per colour a zero and two of each doubled symbol, then four rounds of a black wildcard and a black plus_four |
| Cards.CatalogColours | migrations/1762486014302_create-cards-table.ts:31-50 | a catalog card is black exactly when it is a wildcard or plus_four; every other card is blue, yellow, green or red |
| Cards.BuildCatalog | migrations/1762486014302_create-cards-table.ts:30-50 | the insertion loops produce the catalog: 108 cards with the expected multiplicity of each |
| Cards.InsertCards | migrations/1762486014302_create-cards-table.ts:35-50 | the nested for loops append the colour blocks in colour order and then the wild rounds |
| Rules.EffectiveColour | src/backend/services/game-service.ts:18-19 | the colour a play must match is the active colour when one is set, and is always either the top card's colour or the active colour |
| Rules.ValidateCardPlay | src/backend/services/game-service.ts:8-33 | a plus four is legal on anything; every legal card is a draw or wild card, has the effective colour, or has the top card's symbol; the exact cases are the lemmas in the rows below |
| Rules.PendingDrawsAcceptDrawCards | src/backend/services/game-service.ts:22-24 | with draws pending, a plus_two or plus_four is accepted whatever the top card and colour |
| Rules.PendingDrawsRefuseOtherCards | src/backend/services/game-service.ts:21-24 | with draws pending, numbers, skip, swap and wildcard are refused whatever they match |
| Rules.WildsAlwaysLegal | src/backend/services/game-service.ts:26-29 | with nothing pending, wildcard and plus_four are legal on any top card and colour |
| Rules.SymbolMatchLegal | src/backend/services/game-service.ts:31-32 | with nothing pending, a card showing the top card's symbol is legal whatever the colours |
| Rules.ActiveColourOverridesTop | src/backend/services/game-service.ts:18-32 | a set active colour replaces the top card's colour as the colour to match; without one the top colour counts |
| Rules.EffectsOf | src/backend/services/game-service.ts:38-82 | fails exactly for a wild card without a chosen colour; colour is the chosen one for wilds, else the card's; pending +2/+4 for draw cards, else 0; multiplier -1 only for swap; skip 1 only for skip |
| Rules.CalculateCardEffects | src/backend/services/game-service.ts:38-82 | the switch over mutable locals computes exactly `EffectsOf` |
| Rules.NextIndex | src/backend/services/game-service.ts:87-98 | the next seat always lies in [0, playerCount) |
| Rules.CalculateNextPlayer | src/backend/services/game-service.ts:87-98 | the normalising while loop ends, and its result is (current + (1 + skip) × direction) mod playerCount, in range |
| Rules.NextIndexWrap | src/backend/services/game-service.ts:93-97 | shifting the current index by a whole round does not change the next seat |
| Rules.NextIndexWalksSeats | src/backend/services/game-service.ts:93-97 | the next seat is the one reached by walking 1 + skip single seats around the table in the play direction |
| Rules.TwoPlayerSkipReturnsTurn | src/backend/services/game-service.ts:243-245 | with two players a skip of one seat gives the turn back to the same player in either direction |
| Rules.OneSeatMoves | src/backend/services/game-service.ts:299-304 | a draw's move of one seat never stays put at a table of two or more and wraps at either end |
| GameCards.RowsOwnedByCounts | src/backend/db/game-cards/sql.ts:7-12 | the `game_id=$1 AND user_id=0` filter keeps every copy of each matching row and no other row |
| GameCards.RowsOwnedBy | src/backend/db/game-cards/sql.ts:9 | the rows of one game with one owner, in table order; each is a table row of that game and owner |
| GameCards.SortByOrder | src/backend/db/game-cards/sql.ts:10 | `ORDER BY card_order` gives a sequence ascending by order that is a permutation of its input |
| GameCards.DrawCardsQuery | src/backend/db/game-cards/sql.ts:7-12 | returns min(limit, deck size) deck rows of the game, ascending by order, a sub-multiset of the deck, none with a higher order than any deck row left behind |
| GameCards.DrawCards | src/backend/db/game-cards/index.ts:17-19 | passes game and limit through to DRAW_CARDS; fails with NoRows exactly when the limit is 0 or the deck is empty |
| GameCards.CardOf | src/backend/db/game-cards/sql.ts:22 | (definition) the join `card_id = cards.id`: card id k is the k-th catalog card, and an id outside the catalog joins nothing |
| GameCards.PlayerHandsQuery | src/backend/db/game-cards/sql.ts:19-23 | every joined card is a row of the game with its catalog card, and every row of the game with a catalog card is joined |
| GameCards.OwnedBy | src/backend/db/game-cards/index.ts:26-37 | the joined cards of one owner in query order; each is a card of the input with that owner |
| GameCards.OwnedByCounts | src/backend/db/game-cards/index.ts:26-37 | each card appears in its owner's list exactly as often as in the query result, and in no other list |
| GameCards.OwnedByAppend | src/backend/db/game-cards/index.ts:32 | grouping distributes over concatenation, so each hand keeps the relative order of the query |
| GameCards.GroupHands | src/backend/db/game-cards/index.ts:26-37 | a key exists exactly for owners >= 1 holding a card, and its list is that owner's cards in query order; deck and discard pile never appear |
| GameCards.PlayerHands | src/backend/db/game-cards/index.ts:25-38 | fails with NoRows exactly when the game has no joined rows; otherwise every key is >= 1 and a missing key is an empty hand |
| GameCards.HandOf | src/backend/services/game-service.ts:215 | `updatedHands[userId]`, or an empty list: a user present in the map gets their hand, and a non-empty result always comes from the map, so a missing user reads as an empty hand |
| GameCards.TopDiscard | src/backend/db/game-cards/sql.ts:38-42 | returns exactly the discard-pile rows of the game joined with their catalog cards |
| GameCards.OlderDiscardStaysFirst | src/backend/services/game-service.ts:181-182 | with a blue five already on the pile, discarding a red seven leaves the blue five as the first discard row, which playCard then treats as the top card |
| GameCards.SameShapeConservesCards | src/backend/db/game-cards/sql.ts:14-36 | statements that only change owners keep the multiset of card ids of every game |
| GameCards.NewDeckHoldsCatalog | src/backend/db/game-cards/sql.ts:1-5 | CREATE_DECK makes one deck row per catalog card, joining to that card; the k-th row's `card_order` is the k-th ROW_NUMBER value, and these orders are pairwise distinct and lie in 1..N, so they are a permutation of 1..N |
| GameCards.FreshDeckDrawsDistinctCards | src/backend/db/game-cards/sql.ts:1-12 | in a game with no earlier rows, drawing from the new deck never yields the same card id twice |
| GameCards.NewDeck | src/backend/db/game-cards/sql.ts:1-5 | the INSERT ... SELECT adds one row per shuffle position, that is one per catalog card; what the rows hold is stated by `GameCards.NewDeckHoldsCatalog` |
| GameCards.CardIds | src/backend/services/game-service.ts:288 | `cards.map(c => c.card_id)`: the card ids of the rows, position by position |
| GameCards.Deal | src/backend/db/game-cards/sql.ts:14-17 | the rows of the game whose card id is listed get the user as owner; every other row, and every other column, is unchanged |
| GameCards.SetOwnerById | src/backend/services/game-service.ts:204 | the row with the given id gets the new owner; every other row and column is unchanged |
| GameCards.InitialDiscardRows | src/backend/db/game-cards/sql.ts:25-36 | only the owner column can change |
| GameCards.InitialDiscardMovesLowest | src/backend/db/game-cards/sql.ts:25-36 | an empty deck leaves the table unchanged; otherwise exactly one deck row of the game with the least order goes to the discard pile |
| GameCards.MoveToDiscard | src/backend/services/game-service.ts:204 | the row with the named id gets owner -1; every other row, and every other column, is unchanged |
| GameCards.CardTable.CreateDeck | src/backend/db/game-cards/index.ts:13-15 | appends the new deck rows with fresh serial ids and keeps ids unique |
| GameCards.CardTable.DealCards | src/backend/db/game-cards/index.ts:21-23 | runs DEAL_CARDS with (userId, cardIds, gameId) in the order it expects; nothing else changes |
| GameCards.CardTable.InitialDiscard | src/backend/db/game-cards/index.ts:40 | the table becomes INITIAL_DISCARD applied to it |
| GameCards.CardTable.MoveCardToDiscard | src/backend/services/game-service.ts:204 | the named row's owner becomes -1; ids stay unique |
| Games.GameRecord.constructor | migrations/1766113079737_add-uno-game-state.ts:10-27 | a new game is in the lobby (state default, migrations/1763091833588_create-games-table.ts:20-24), with no turn and no winner (nullable columns, migrations/1764027700069_add-game-state-columns.ts:8-23), no colour, no pending draws and direction 1 |
| Games.GameRecord.Read | src/backend/db/games/index.ts:45-49 | a selected column is never `undefined`; it is `null` exactly when the nullable column is unset |
| Games.GameRecord.Select | src/backend/db/games/sql.ts:49-61 | the result row has exactly the selected columns with their current values; anything else reads as `undefined` |
| Games.GameRecord.SetGameState | src/backend/db/games/sql.ts:44-47 | only `state` changes |
| Games.GameRecord.SetCurrentPlayer | src/backend/db/games/sql.ts:53-56 | only `current_turn_user_id` changes |
| Games.GameRecord.UpdateGameState | src/backend/db/games/sql.ts:63-67 | black, which the `active_color` column type lacks, is rejected with the row unchanged; otherwise colour, pending count and direction take the given values and turn, state and winner stay |
| Games.GameRecord.ResetPendingDraws | src/backend/db/games/sql.ts:69-73 | the pending count becomes 0 and nothing else changes |
| Games.GameRecord.AddPendingDraws | src/backend/db/games/sql.ts:75-79 | the pending count grows by exactly `count` and nothing else changes |
| Games.GameRecord.SetWinner | src/backend/db/games/index.ts:64-65 | only the winner is recorded |
| Games.GameRecord.GameStateRow | src/backend/db/games/sql.ts:58-61 | colour, pending count and direction read their values; winner and state read as `undefined` |
| Games.WinnerGuard | src/backend/services/game-service.ts:161 | playCard's `winner_id !== null` test on a result row: a row without `winner_id` passes it (`undefined !== null`); a row with the column passes exactly when the value is not null |
| Games.AsWrittenGuardRefusesEveryGame | src/backend/services/game-service.ts:160-166 | on the GET_GAME_STATE row the `winner_id !== null` guard fires for every game, won or not |
| Games.CorrectedGuardMatchesWinner | src/backend/db/games/index.ts:45-49 | on a row selecting the columns the result type declares, the guard fires exactly when the game has a winner |
| GameService.IndexOf | src/backend/services/game-service.ts:242 | -1 exactly when the user has no seat, otherwise the first seat holding the user |
| GameService.FindCard | src/backend/services/game-service.ts:175 | none exactly when no card of the hand is on that row id, otherwise the first such hand card |
| GameService.Hand | src/backend/services/game-service.ts:214-215 | a hand holds only rows of the game owned by that user, who is >= 1 |
| GameService.AcceptedPlay | src/backend/services/game-service.ts:160-201 | a play that passes every check is by the current player, in a game without a winner, of a card row of this game they own, legal on a discard-pile card |
| GameService.CheckPlay | src/backend/services/game-service.ts:160-201 | refuses, in the source's order, a won game, another player's turn, a game without rows, a card not in the hand, an empty pile and an illegal play; on success returns the hand card |
| GameService.Refusal | src/backend/services/game-service.ts:160-201 | a game with a winner is always refused with GameOver; a refusal is one of the six checks made before the play, never MustChooseColour or ColourRejected |
| GameService.PlayMovesOneCard | src/backend/services/game-service.ts:203-215 | moving the played card takes exactly that card out of the player's hand and puts its row on the discard pile |
| GameService.PlayCard | src/backend/services/game-service.ts:154-265 | a refusal changes nothing; otherwise the card is discarded, then a missing wild colour is refused, an emptied hand wins, a black active colour is rejected by the games row, or colour, pending count, direction and next player are set |
| GameService.ApplyPlay | src/backend/services/game-service.ts:203-264 | the post-validation steps: discard, effects, win, or update (refused for black) and advance, with two-player swap skipping one seat |
| GameService.PlayResult | src/backend/services/game-service.ts:203-264 | the specification `ApplyPlay` is proved against; the turn changes only with a TurnPassed outcome, to the player it names, and a GameWon outcome records the caller as winner with an empty hand |
| GameService.DrawCount | src/backend/services/game-service.ts:277-279 | the pending draws when positive, otherwise one |
| GameService.DrawCard | src/backend/services/game-service.ts:268-313 | another player's turn changes nothing; an empty deck changes nothing; otherwise the top cards go to the caller, pending is cleared if positive, and the turn moves one seat in the current direction |
| GameService.HandSlice | src/backend/services/game-service.ts:111 | at most seven ids, exactly ids[7i..7i+7) when the list is long enough |
| GameService.DealHands | src/backend/services/game-service.ts:110-114 | dealing only changes owners |
| GameService.DealHandsGivesSlices | src/backend/services/game-service.ts:107-114 | with distinct ids, player i owns the game's cards of slice i, and rows outside the first 7n ids are untouched |
| GameService.FullHands | src/backend/services/game-service.ts:107-111 | with 7 ids per player, every slice holds exactly seven cards |
| GameService.StartDealsSevenEach | src/backend/services/game-service.ts:101-114 | in a fresh game with enough cards, 7n distinct cards are drawn and player i is dealt those drawn at positions [7i, 7i+7) |
| GameService.Start | src/backend/services/game-service.ts:99-126 | creates the deck; without players or deck cards fails with the game untouched; otherwise deals slices, discards one card, activates the game and gives the turn to the first player |
| GameService.Get | src/backend/services/game-service.ts:129-152 | fails exactly when the game has no rows or players; otherwise the hands, current player, players, discard pile, colour, pending count and direction, with winner and state `undefined` |

## Left out

- Asynchrony, transactions, concurrency and logging are left out. Each service call is one sequential method, and
  concurrent calls and partial failure between statements are not modelled. `logger` is not even imported by the
  service.
- JavaScript numbers are unbounded integers here. IEEE doubles and the PostgreSQL `integer` width are not modelled.
- The random order of CREATE_DECK (`ORDER BY RANDOM()`) is a `shuffle` parameter. It is any permutation of 1..N
  (`IsOrdering`), not a random one.
- The rows of the `cards` table are the catalog parameter, with card id k naming its k-th entry. `Cards.Catalog`
  is what the migration inserts.
- The player list (`getGamePlayerIds`, `getGamePlayers`) is a parameter: user ids in join order. Usernames, e-mail
  addresses and timestamps of `getGamePlayers` are not modelled.
- `getCurrentPlayer` is a read of the record's `current_turn_user_id`. `db.one` failing on a missing game row is
  not modelled: the game always exists.
- GameCards.CardTable.MoveCardToDiscard: `moveCardToDiscard` is called but defined nowhere. It is modelled as
  "owner := -1" on the row with that id. Its gameId and userId arguments are ignored.
- Games.GameRecord.SetWinner: the `SET_WINNER` statement is defined nowhere. It is modelled as "winner := userId"
  only.
- `chosenColor` is absent or one of the five card colours. A black colour is rejected when UPDATE_GAME_STATE
  stores it, because the `card_color_choice` type of `active_color` has no black
  (migrations/1766113079737_add-uno-game-state.ts:7,12). Other strings, which that type rejects in the same way,
  are not modelled.
- GameService.PlayCard: `logger` is used but never declared in the service. As written, the `logger.info` at
  game-service.ts:220 throws a ReferenceError after `setWinner` has recorded the winner. The model returns the
  intended `GameWon` outcome instead, with the same recorded state.
- GameService.CheckPlay: a won game is refused as `GameOver`. As written, the `logger.info` at
  game-service.ts:162 throws a ReferenceError before "Game is already over". The play is refused and nothing
  changes either way; only the error differs.
- TOP_DISCARD has no ORDER BY, although game-service.ts:182 takes element 0 as "the newest". The model returns
  the table order and `playCard` takes its first element. So the next play can be checked against an older discard
  rather than the card just played (`GameCards.OlderDiscardStaysFirst`). The table has no column recording when a
  card was discarded, so no "newest first" order is modelled.
- `updateGameState` is declared with `play_direction: number;`, a `;` inside its parameter list
  (src/backend/db/games/index.ts:55). That does not compile as written. The model takes the intended
  three-parameter `updateGameState`.
- The `started_at` and `ended_at` columns are not modelled: the service never reads or writes them.
- The `"No cards left in deck"` branch of `drawCard` is not modelled, because `drawCards` uses `db.many`, which
  already fails on an empty result (`NoRows`).
- The other operations of the games module (`create`, `join`, `list`, `getByUser`, `get` by id) and `passTurn`
  are not modelled. `passTurn` is called by the socket layer but defined nowhere.
- The frontend, socket rooms and Express routes are not modelled. They are transport and UI code.
- The tables and migrations of the earlier Go Fish rule set are not modelled: nothing in the service reads them.
- Games.GameRecord.Read: values are modelled as `undefined`/`null`/number/text. The textual form of a colour
  follows the enum names, and no other JSON detail of pg-promise's results is modelled.

## Findings

| source | as written | input that shows it | evidently intended | confidence | as-written member | corrected member |
|---|---|---|---|---|---|---|
| src/backend/services/game-service.ts:160-166 with src/backend/db/games/sql.ts:58-61 | GET_GAME_STATE selects only `active_color`, `pending_draw_count` and `play_direction`, so `gameStateBefore.winner_id` is `undefined` and `undefined !== null` holds: every play enters the won-game branch, where the undeclared `logger` throws a ReferenceError (or, were it declared, "Game is already over") | any game, for example one just started with no winner | select `winner_id` and `state` too, as the result type of `getGameState` declares, so that only a won game refuses plays | not executed | Games.AsWrittenGuardRefusesEveryGame | Games.CorrectedGuardMatchesWinner |

`GameService.CheckPlay`, and so `GameService.PlayCard`, use the corrected row. The `get` snapshot is modelled as
written: its `winnerId` and `state` are always `undefined`.
