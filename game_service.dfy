/**
 * The game service: `start`, `playCard`, `drawCard` and the `get` snapshot,
 * each one sequential method over the card table and the game record. The
 * players of the game are their user ids in join order.
 */
module GameService {
  import opened Wrappers
  import opened Errors
  import opened Cards
  import opened Rules
  import opened GameCards
  import opened Games

  /** Cards dealt to each player at the start. */
  const HandSize: nat := 7

  /** `findIndex(p => p.user_id === userId)`: the first seat of the user, -1 when they have none. */
  function IndexOf(players: seq<int>, userId: int): (r: int)
    ensures -1 <= r < |players|
    ensures r == -1 <==> userId !in players
    ensures r >= 0 ==> players[r] == userId && userId !in players[..r]
  {
    if players == [] then -1
    else if players[0] == userId then 0
    else
      var k := IndexOf(players[1..], userId);
      assert players == [players[0]] + players[1..];
      if k == -1 then -1
      else
        assert players[..k + 1] == [players[0]] + players[1..][..k];
        k + 1
  }

  /** `playerHands(gameId)[userId] || []`: the deck and the discard pile are nobody's hand. */
  function Hand(rows: seq<Row>, catalog: seq<Card>, gameId: int, userId: int): (r: seq<DisplayCard>)
    ensures forall c :: c in r ==> c.row in rows && c.row.gameId == gameId && c.row.owner == userId && userId >= 1
  {
    if userId >= 1 then OwnedBy(PlayerHandsQuery(rows, catalog, gameId), userId) else []
  }

  /** `find(c => c.id === cardId)`: the first card of the hand on the row with that id. */
  function FindCard(hand: seq<DisplayCard>, rowId: int): (r: Option<DisplayCard>)
    ensures r.None? <==> forall c :: c in hand ==> c.row.id != rowId
    ensures r.Some? ==> r.value in hand && r.value.row.id == rowId
    ensures r.Some? ==> exists k :: 0 <= k < |hand| && hand[k] == r.value && forall j :: 0 <= j < k ==> hand[j].row.id != rowId
  {
    if hand == [] then None
    else if hand[0].row.id == rowId then Some(hand[0])
    else FindCard(hand[1..], rowId)
  }

  /**
   * The checks playCard makes before it touches anything, in its order: a won
   * game, somebody else's turn, a game without card rows, a card that is not in
   * the caller's hand, an empty discard pile (reading the top card fails) and an
   * illegal play. The first that applies is the refusal; none means the play goes ahead.
   */
  function Refusal(rows: seq<Row>, catalog: seq<Card>, gameId: int, winner: Option<int>, currentTurn: Option<int>,
                   activeColour: Option<Colour>, pending: int, userId: int, cardId: int): (r: Option<Error>)
    ensures winner.Some? ==> r == Some(GameOver)
    ensures r.Some? ==> r.value in {GameOver, NotYourTurn, NoRows, CardNotInHand, NoTopCard, InvalidPlay}
  {
    var found := FindCard(Hand(rows, catalog, gameId, userId), cardId);
    var top := TopDiscard(rows, catalog, gameId);
    if winner.Some? then Some(GameOver)
    else if currentTurn != Some(userId) then Some(NotYourTurn)
    else if PlayerHandsQuery(rows, catalog, gameId) == [] then Some(NoRows)
    else if found.None? then Some(CardNotInHand)
    else if top == [] then Some(NoTopCard)
    else if !ValidateCardPlay(found.value.card, top[0].card, activeColour, pending) then Some(InvalidPlay)
    else None
  }

  /**
   * A play that passes every check comes from the player whose turn it is, in a
   * game without a winner, and names a card of this game that the player owns
   * and that may legally go on a card of the discard pile.
   */
  lemma AcceptedPlay(rows: seq<Row>, catalog: seq<Card>, gameId: int, winner: Option<int>, currentTurn: Option<int>,
                     activeColour: Option<Colour>, pending: int, userId: int, cardId: int)
    requires Refusal(rows, catalog, gameId, winner, currentTurn, activeColour, pending, userId, cardId).None?
    ensures winner.None? && currentTurn == Some(userId) && userId >= 1
    ensures exists x :: (x in rows && x.id == cardId && x.gameId == gameId && x.owner == userId
      && CardOf(catalog, x.cardId).Some?)
    ensures exists t :: (t in rows && t.gameId == gameId && t.owner == DiscardOwner && CardOf(catalog, t.cardId).Some?
      && ValidateCardPlay(FindCard(Hand(rows, catalog, gameId, userId), cardId).value.card, CardOf(catalog, t.cardId).value, activeColour, pending))
  {
    var c := FindCard(Hand(rows, catalog, gameId, userId), cardId).value;
    assert c.row in rows && c.row.id == cardId;
    assert CardOf(catalog, c.row.cardId) == Some(c.card) by {
      assert c in PlayerHandsQuery(rows, catalog, gameId);
    }
    var top := TopDiscard(rows, catalog, gameId)[0];
    assert top in TopDiscard(rows, catalog, gameId);
    assert top.row in rows && CardOf(catalog, top.row.cardId) == Some(top.card);
  }

  /** playCard's checks, run on the current table and record; nothing is changed. */
  method CheckPlay(table: CardTable, game: GameRecord, gameId: int, catalog: seq<Card>, userId: int, cardId: int)
    returns (r: Result<DisplayCard, Error>)
    ensures var refusal := Refusal(table.rows, catalog, gameId, game.winner, game.currentTurn,
                                   game.activeColour, game.pendingDrawCount, userId, cardId);
      && (r.Failure? <==> refusal.Some?)
      && (r.Failure? ==> r.error == refusal.value)
    ensures r.Success? ==> FindCard(Hand(table.rows, catalog, gameId, userId), cardId) == Some(r.value)
  {
    var before := game.Select(DeclaredGameStateColumns);
    CorrectedGuardMatchesWinner(game);
    if WinnerGuard(before) {
      return Failure(GameOver);
    }
    if game.currentTurn != Some(userId) {
      return Failure(NotYourTurn);
    }
    var hands := PlayerHands(table.rows, catalog, gameId);
    if hands.Failure? {
      return Failure(NoRows);
    }
    var found := FindCard(HandOf(hands.value, userId), cardId);
    if found.None? {
      return Failure(CardNotInHand);
    }
    var topCards := TopDiscard(table.rows, catalog, gameId);
    if topCards == [] {
      return Failure(NoTopCard);
    }
    if !ValidateCardPlay(found.value.card, topCards[0].card, game.activeColour, game.pendingDrawCount) {
      return Failure(InvalidPlay);
    }
    r := Success(found.value);
  }

  /** A card is in a hand as often as its row is in the table, if the row is the player's and joins to that card. */
  lemma HandCount(rows: seq<Row>, catalog: seq<Card>, gameId: int, userId: int, d: DisplayCard)
    ensures multiset(Hand(rows, catalog, gameId, userId))[d] ==
      if userId >= 1 && d.row.owner == userId && d.row.gameId == gameId && CardOf(catalog, d.row.cardId) == Some(d.card)
      then multiset(rows)[d.row] else 0
  {
    if userId >= 1 {
      var query := PlayerHandsQuery(rows, catalog, gameId);
      OwnedByCounts(query, userId);
      PlayerHandsQueryCounts(rows, catalog, gameId);
      assert multiset(Hand(rows, catalog, gameId, userId))[d] == if d.row.owner == userId then multiset(query)[d] else 0;
    }
  }

  /** One card's count in the hand after row `c.row` went to the discard pile. */
  lemma MovedHandCount(rows: seq<Row>, catalog: seq<Card>, gameId: int, userId: int, c: DisplayCard, d: DisplayCard)
    requires UniqueIds(rows) && c in Hand(rows, catalog, gameId, userId)
    ensures multiset(Hand(MoveToDiscard(rows, c.row.id), catalog, gameId, userId))[d]
      == (multiset(Hand(rows, catalog, gameId, userId)) - multiset{c})[d]
  {
    var moved := MoveToDiscard(rows, c.row.id);
    assert c in PlayerHandsQuery(rows, catalog, gameId) && c.row.owner == userId && userId >= 1;
    assert c.row in rows && CardOf(catalog, c.row.cardId) == Some(c.card);
    HandCount(rows, catalog, gameId, userId, d);
    HandCount(moved, catalog, gameId, userId, d);
    HandCount(rows, catalog, gameId, userId, c);
    if d.row.owner == userId {
      SetOwnerByIdCounts(rows, c.row.id, DiscardOwner);
      assert multiset(moved)[d.row] == if d.row.id == c.row.id then 0 else multiset(rows)[d.row];
      if d == c {
        UniqueIdsCount(rows, c.row);
      } else if d.row.id == c.row.id && d.row != c.row {
        OnlyRowWithId(rows, c.row, d.row);
      }
    }
  }

  /**
   * Playing card `c` takes exactly that card out of the player's hand and puts
   * its row, now owned by the discard pile, on the pile.
   */
  lemma PlayMovesOneCard(rows: seq<Row>, catalog: seq<Card>, gameId: int, userId: int, c: DisplayCard)
    requires UniqueIds(rows) && c in Hand(rows, catalog, gameId, userId)
    ensures multiset(Hand(MoveToDiscard(rows, c.row.id), catalog, gameId, userId))
      == multiset(Hand(rows, catalog, gameId, userId)) - multiset{c}
    ensures DisplayCard(c.row.(owner := DiscardOwner), c.card) in TopDiscard(MoveToDiscard(rows, c.row.id), catalog, gameId)
  {
    var moved := MoveToDiscard(rows, c.row.id);
    var hand := Hand(rows, catalog, gameId, userId);
    var handAfter := Hand(moved, catalog, gameId, userId);
    forall d ensures multiset(handAfter)[d] == (multiset(hand) - multiset{c})[d] {
      MovedHandCount(rows, catalog, gameId, userId, c, d);
    }
    assert multiset(handAfter) == multiset(hand) - multiset{c};
    assert c in PlayerHandsQuery(rows, catalog, gameId);
    var k :| 0 <= k < |rows| && rows[k] == c.row;
    assert moved[k] == c.row.(owner := DiscardOwner);
  }

  datatype PlayOutcome =
    | GameWon(winnerId: int, activeColour: Colour, pendingDrawCount: int)
    | TurnPassed(nextPlayerId: int, activeColour: Colour, pendingDrawCount: int)

  /**
   * `playCard`: refuses as `Refusal` says, leaving everything alone; otherwise
   * plays the card it found in the caller's hand.
   */
  method PlayCard(table: CardTable, game: GameRecord, gameId: int, players: seq<int>, catalog: seq<Card>,
                  userId: int, cardId: int, chosenColour: Option<Colour>)
    returns (r: Result<PlayOutcome, Error>)
    requires table.Valid()
    modifies table, game
    ensures table.Valid() && table.nextId == old(table.nextId)
    ensures var refusal := old(Refusal(table.rows, catalog, gameId, game.winner, game.currentTurn,
                                       game.activeColour, game.pendingDrawCount, userId, cardId));
      refusal.Some? ==> r == Failure(refusal.value) && table.rows == old(table.rows) && unchanged(game)
    ensures var refusal := old(Refusal(table.rows, catalog, gameId, game.winner, game.currentTurn,
                                       game.activeColour, game.pendingDrawCount, userId, cardId));
      refusal.None? ==>
        PlayResult(old(table.rows), table.rows, old(game.Fields()), game.Fields(), players, catalog, gameId, userId, cardId,
                   old(FindCard(Hand(table.rows, catalog, gameId, userId), cardId)).value.card, chosenColour, r)
  {
    var checked := CheckPlay(table, game, gameId, catalog, userId, cardId);
    if checked.Failure? {
      return Failure(checked.error);
    }
    r := ApplyPlay(table, game, gameId, players, catalog, userId, cardId, checked.value.card, chosenColour);
  }

  /**
   * The outcome of a validated play of `played` (row `cardId`) by `userId`: the
   * card is on the discard pile; a wild card without a chosen colour is then
   * refused and the record stays as it was; a player left without cards has
   * won and only the winner is recorded; a black active colour is rejected by
   * the games row and nothing more changes; otherwise colour, pending count and
   * direction take the card's effects and, when the game has players, the turn
   * goes to the seat `NextIndex` gives, a swap between two players skipping one.
   */
  ghost function PlayResult(rowsBefore: seq<Row>, rowsAfter: seq<Row>, before: GameFields, after: GameFields,
                            players: seq<int>, catalog: seq<Card>, gameId: int, userId: int, cardId: int,
                            played: Card, chosenColour: Option<Colour>, r: Result<PlayOutcome, Error>): (p: bool)
    ensures p && after.currentTurn != before.currentTurn ==>
      r.Success? && r.value.TurnPassed? && after.currentTurn == Some(r.value.nextPlayerId)
    ensures p && r.Success? && r.value.GameWon? ==>
      after.winner == Some(userId) && Hand(rowsAfter, catalog, gameId, userId) == []
  {
    var effects := EffectsOf(played.symbol, played.colour, chosenColour, before.pendingDrawCount);
    && rowsAfter == MoveToDiscard(rowsBefore, cardId)
    && (effects.Failure? ==> r == Failure(MustChooseColour) && after == before)
    && (effects.Success? ==>
          var e := effects.value;
          var direction := before.playDirection * e.directionMultiplier;
          var updated := before.(activeColour := Some(e.activeColour), pendingDrawCount := e.pendingDrawCount,
                                 playDirection := direction);
          if Hand(rowsAfter, catalog, gameId, userId) == [] then
            r == Success(GameWon(userId, e.activeColour, e.pendingDrawCount)) && after == before.(winner := Some(userId))
          else if e.activeColour == Black then
            r == Failure(ColourRejected) && after == before
          else if players == [] then
            r == Failure(NoRows) && after == updated
          else
            var skip := if |players| == 2 && played.symbol == Swap then 1 else e.skipCount;
            var next := players[NextIndex(IndexOf(players, userId), |players|, direction, skip)];
            r == Success(TurnPassed(next, e.activeColour, e.pendingDrawCount)) && after == updated.(currentTurn := Some(next)))
  }

  /**
   * The part of playCard after validation: moves the card to the discard pile,
   * and only then works out its effects, so a wild card without a chosen colour
   * is refused with the card already played.
   */
  method ApplyPlay(table: CardTable, game: GameRecord, gameId: int, players: seq<int>, catalog: seq<Card>,
                   userId: int, cardId: int, played: Card, chosenColour: Option<Colour>)
    returns (r: Result<PlayOutcome, Error>)
    requires table.Valid() && PlayerHandsQuery(table.rows, catalog, gameId) != []
    modifies table, game
    ensures table.Valid() && table.nextId == old(table.nextId)
    ensures PlayResult(old(table.rows), table.rows, old(game.Fields()), game.Fields(), players, catalog, gameId,
                       userId, cardId, played, chosenColour, r)
  {
    ghost var rowsBefore := table.rows;
    table.MoveCardToDiscard(cardId, gameId, userId);
    var effects := CalculateCardEffects(played.symbol, played.colour, chosenColour, game.pendingDrawCount);
    if effects.Failure? {
      return Failure(effects.error);
    }
    SameShapeKeepsJoin(rowsBefore, table.rows, catalog, gameId);
    var updated := PlayerHands(table.rows, catalog, gameId);
    assert updated.Success?;
    var remaining := HandOf(updated.value, userId);
    assert remaining == Hand(table.rows, catalog, gameId, userId);
    if remaining == [] {
      game.SetWinner(userId);
      return Success(GameWon(userId, effects.value.activeColour, effects.value.pendingDrawCount));
    }
    var newDirection := game.playDirection * effects.value.directionMultiplier;
    var stored := game.UpdateGameState(Some(effects.value.activeColour), effects.value.pendingDrawCount, newDirection);
    if !stored {
      return Failure(ColourRejected);
    }
    if players == [] {
      return Failure(NoRows);
    }
    var currentIndex := IndexOf(players, userId);
    var reverse := |players| == 2 && played.symbol == Swap;
    var realSkipCount := if reverse then 1 else effects.value.skipCount;
    var nextIndex := CalculateNextPlayer(currentIndex, |players|, newDirection, realSkipCount);
    var nextPlayerId := players[nextIndex];
    game.SetCurrentPlayer(nextPlayerId);
    r := Success(TurnPassed(nextPlayerId, effects.value.activeColour, effects.value.pendingDrawCount));
  }

  /** The number of cards drawCard asks for: the pending draws if any, otherwise one. */
  function DrawCount(pending: int): (r: nat)
    ensures r >= 1
    ensures pending > 0 ==> r == pending
    ensures pending <= 0 ==> r == 1
  {
    if pending > 0 then pending else 1
  }

  datatype DrawOutcome = DrawOutcome(drawnCards: seq<Row>, count: nat, nextPlayerId: int)

  /**
   * `drawCard`: only the player whose turn it is may draw; they take the pending
   * draws, or one card, from the top of the deck; pending draws are cleared if
   * there were any; the turn moves one seat on in the current direction.
   */
  method DrawCard(table: CardTable, game: GameRecord, gameId: int, players: seq<int>, userId: int)
    returns (r: Result<DrawOutcome, Error>)
    requires table.Valid()
    modifies table, game
    ensures table.Valid() && table.nextId == old(table.nextId)
    ensures old(game.currentTurn) != Some(userId) ==> r == Failure(NotYourTurn) && unchanged(table) && unchanged(game)
    ensures old(game.currentTurn) == Some(userId) ==>
      var count := DrawCount(old(game.pendingDrawCount));
      var drawn := DrawCardsQuery(old(table.rows), gameId, count);
      var cleared := if old(game.pendingDrawCount) > 0 then old(game.Fields()).(pendingDrawCount := 0) else old(game.Fields());
      && (drawn == [] ==> r == Failure(NoRows) && unchanged(table) && unchanged(game))
      && (drawn != [] ==>
            && table.rows == Deal(old(table.rows), userId, CardIds(drawn), gameId)
            && (players == [] ==> r == Failure(NoRows) && game.Fields() == cleared)
            && (players != [] ==>
                  var next := players[NextIndex(IndexOf(players, userId), |players|, old(game.playDirection), 0)];
                  game.Fields() == cleared.(currentTurn := Some(next)) && r == Success(DrawOutcome(drawn, count, next))))
  {
    if game.currentTurn != Some(userId) {
      return Failure(NotYourTurn);
    }
    var cardsToDraw := DrawCount(game.pendingDrawCount);
    var cards := DrawCards(table.rows, gameId, cardsToDraw);
    if cards.Failure? {
      return Failure(NoRows);
    }
    table.DealCards(gameId, userId, CardIds(cards.value));
    if game.pendingDrawCount > 0 {
      game.ResetPendingDraws();
    }
    if players == [] {
      return Failure(NoRows);
    }
    var currentIndex := IndexOf(players, userId);
    var nextIndex := CalculateNextPlayer(currentIndex, |players|, game.playDirection, 0);
    var nextPlayerId := players[nextIndex];
    game.SetCurrentPlayer(nextPlayerId);
    r := Success(DrawOutcome(cards.value, cardsToDraw, nextPlayerId));
  }

  /** `slice(i * 7, (i + 1) * 7)`, which stops early at the end of the list. */
  function HandSlice(ids: seq<int>, i: nat): (r: seq<int>)
    ensures |r| <= HandSize
    ensures (i + 1) * HandSize <= |ids| ==> r == ids[i * HandSize..(i + 1) * HandSize]
  {
    ids[Min(i * HandSize, |ids|)..Min((i + 1) * HandSize, |ids|)]
  }

  /** The table after `dealCards` has given every player in `players`, in order, their slice of `ids`. */
  function DealHands(rows: seq<Row>, gameId: int, players: seq<int>, ids: seq<int>): (r: seq<Row>)
    ensures SameShape(rows, r)
    decreases |players|
  {
    if players == [] then rows
    else
      var n := |players| - 1;
      var dealt := DealHands(rows, gameId, players[..n], ids);
      var r := Deal(dealt, players[n], HandSlice(ids, n), gameId);
      SameShapeTransitive(rows, dealt, r);
      r
  }

  /** Dealing to one more player is one more DEAL_CARDS. */
  lemma DealHandsStep(rows: seq<Row>, gameId: int, players: seq<int>, ids: seq<int>, i: nat)
    requires i < |players|
    ensures DealHands(rows, gameId, players[..i + 1], ids)
      == Deal(DealHands(rows, gameId, players[..i], ids), players[i], HandSlice(ids, i), gameId)
  {
    assert players[..i + 1][..i] == players[..i];
  }

  /** Distinct ids fall into one slice at most. */
  lemma SlicesDisjoint(ids: seq<int>, i: nat, j: nat, x: int)
    requires Distinct(ids) && x in HandSlice(ids, i) && x in HandSlice(ids, j)
    ensures i == j
  {
  }

  /** The first `n` slices make up the first `7 n` ids. */
  lemma SlicesPrefix(ids: seq<int>, n: nat)
    ensures ids[..Min((n + 1) * HandSize, |ids|)] == ids[..Min(n * HandSize, |ids|)] + HandSlice(ids, n)
  {
  }

  /**
   * Dealing with distinct card ids: the i-th player in join order owns exactly
   * the game's cards of slice [7i, 7i+7); a card of the game beyond the first
   * 7n ids, and every row of another game, is left alone.
   */
  lemma {:induction false} DealHandsGivesSlices(rows: seq<Row>, gameId: int, players: seq<int>, ids: seq<int>)
    requires Distinct(ids)
    ensures forall k, i ::
      (0 <= k < |rows| && 0 <= i < |players| && rows[k].gameId == gameId && rows[k].cardId in HandSlice(ids, i))
      ==> DealHands(rows, gameId, players, ids)[k].owner == players[i]
    ensures forall k ::
      (0 <= k < |rows| && !(rows[k].gameId == gameId && rows[k].cardId in ids[..Min(|players| * HandSize, |ids|)]))
      ==> DealHands(rows, gameId, players, ids)[k] == rows[k]
    decreases |players|
  {
    if players != [] {
      var n := |players| - 1;
      var inner := players[..n];
      var dealt := DealHands(rows, gameId, inner, ids);
      DealHandsGivesSlices(rows, gameId, inner, ids);
      SlicesPrefix(ids, n);
      var result := DealHands(rows, gameId, players, ids);
      assert result == Deal(dealt, players[n], HandSlice(ids, n), gameId);
      forall k, i | 0 <= k < |rows| && 0 <= i < |players| && rows[k].gameId == gameId && rows[k].cardId in HandSlice(ids, i)
        ensures result[k].owner == players[i]
      {
        assert dealt[k] == rows[k].(owner := dealt[k].owner);
        if i < n {
          if rows[k].cardId in HandSlice(ids, n) {
            SlicesDisjoint(ids, i, n, rows[k].cardId);
          }
          assert inner[i] == players[i];
        }
      }
      forall k | 0 <= k < |rows| && !(rows[k].gameId == gameId && rows[k].cardId in ids[..Min(|players| * HandSize, |ids|)])
        ensures result[k] == rows[k]
      {
        assert dealt[k] == rows[k].(owner := dealt[k].owner);
      }
    }
  }

  /** With at least 7 ids per player every slice holds exactly seven cards. */
  lemma FullHands(ids: seq<int>, playerCount: nat, i: nat)
    requires playerCount * HandSize <= |ids| && i < playerCount
    ensures |HandSlice(ids, i)| == HandSize
  {
  }

  /**
   * Starting a game that had no rows, with at least seven catalog cards per
   * player: exactly seven cards per player are drawn, no card twice, and the
   * i-th player in join order is dealt exactly the cards drawn at positions
   * [7i, 7i+7).
   */
  lemma StartDealsSevenEach(rows: seq<Row>, gameId: int, firstId: int, shuffle: seq<int>, players: seq<int>, catalog: seq<Card>)
    requires forall x :: x in rows ==> x.gameId != gameId
    requires IsOrdering(shuffle, |catalog|) && |players| * HandSize <= |catalog|
    ensures var created := rows + NewDeck(gameId, firstId, shuffle);
      var ids := CardIds(DrawCardsQuery(created, gameId, |players| * HandSize));
      && |ids| == |players| * HandSize
      && Distinct(ids)
      && (forall i :: 0 <= i < |players| ==> |HandSlice(ids, i)| == HandSize)
      && (forall k, i ::
            (0 <= k < |created| && 0 <= i < |players| && created[k].gameId == gameId && created[k].cardId in HandSlice(ids, i))
            ==> DealHands(created, gameId, players, ids)[k].owner == players[i])
  {
    var deck := NewDeck(gameId, firstId, shuffle);
    var created := rows + deck;
    var ids := CardIds(DrawCardsQuery(created, gameId, |players| * HandSize));
    RowsOwnedByAppend(rows, deck, gameId, DeckOwner);
    NoRowsOfGame(rows, gameId, DeckOwner);
    NewDeckHoldsCatalog(gameId, firstId, shuffle, catalog);
    assert RowsOwnedBy(created, gameId, DeckOwner) == deck;
    FreshDeckDrawsDistinctCards(rows, gameId, firstId, shuffle, |players| * HandSize);
    forall i | 0 <= i < |players| ensures |HandSlice(ids, i)| == HandSize {
      FullHands(ids, |players|, i);
    }
    DealHandsGivesSlices(created, gameId, players, ids);
  }

  /**
   * `start`: creates the deck, deals seven cards to each player in join order
   * from the top of the deck, turns one card over onto the discard pile,
   * activates the game and gives the turn to the first player. An empty player
   * list or an empty deck stops it after the deck is created.
   */
  method Start(table: CardTable, game: GameRecord, gameId: int, players: seq<int>, catalog: seq<Card>, shuffle: seq<int>)
    returns (r: Result<int, Error>)
    requires table.Valid() && IsOrdering(shuffle, |catalog|)
    modifies table, game
    ensures table.Valid() && table.nextId == old(table.nextId) + |catalog|
    ensures var created := old(table.rows) + NewDeck(gameId, old(table.nextId), shuffle);
      && ((players == [] || RowsOwnedBy(created, gameId, DeckOwner) == []) ==>
            r == Failure(NoRows) && table.rows == created && unchanged(game))
      && ((players != [] && RowsOwnedBy(created, gameId, DeckOwner) != []) ==>
            var ids := CardIds(DrawCardsQuery(created, gameId, |players| * HandSize));
            && r == Success(players[0])
            && table.rows == InitialDiscardRows(DealHands(created, gameId, players, ids), gameId)
            && game.Fields() == old(game.Fields()).(state := Active, currentTurn := Some(players[0])))
  {
    table.CreateDeck(gameId, catalog, shuffle);
    ghost var created := table.rows;
    if players == [] {
      return Failure(NoRows);
    }
    assert |players| * HandSize > 0;
    var cardsToDeal := DrawCards(table.rows, gameId, |players| * HandSize);
    if cardsToDeal.Failure? {
      return Failure(NoRows);
    }
    var ids := CardIds(cardsToDeal.value);
    for i := 0 to |players|
      invariant table.Valid() && table.nextId == old(table.nextId) + |catalog|
      invariant unchanged(game)
      invariant table.rows == DealHands(created, gameId, players[..i], ids)
    {
      DealHandsStep(created, gameId, players, ids, i);
      table.DealCards(gameId, players[i], HandSlice(ids, i));
    }
    assert players[..|players|] == players;
    table.InitialDiscard(gameId);
    game.SetGameState(Active);
    game.SetCurrentPlayer(players[0]);
    r := Success(players[0]);
  }

  /** What `get` returns; fields of the games row arrive as JavaScript values. */
  datatype Snapshot = Snapshot(
    playerHands: map<int, seq<DisplayCard>>,
    currentPlayer: Value,
    players: seq<int>,
    topDiscardCard: seq<DisplayCard>,
    activeColour: Value,
    pendingDrawCount: Value,
    playDirection: Value,
    winnerId: Value,
    state: Value)

  /**
   * `get`: the hands, whose turn it is, the players, the discard pile and the
   * GET_GAME_STATE fields. Winner and state are read from a row that does not
   * select them, so they are always `undefined`.
   */
  method Get(table: CardTable, game: GameRecord, gameId: int, players: seq<int>, catalog: seq<Card>)
    returns (r: Result<Snapshot, Error>)
    ensures r.Failure? <==> PlayerHandsQuery(table.rows, catalog, gameId) == [] || players == []
    ensures r.Failure? ==> r.error == NoRows
    ensures r.Success? ==> forall u :: HandOf(r.value.playerHands, u) == Hand(table.rows, catalog, gameId, u)
    ensures r.Success? ==> r.value.currentPlayer == game.Read(CurrentTurnUserId) && r.value.players == players
    ensures r.Success? ==> r.value.topDiscardCard == TopDiscard(table.rows, catalog, gameId)
    ensures r.Success? ==> r.value.activeColour == game.Read(ActiveColour)
    ensures r.Success? ==> r.value.pendingDrawCount == Number(game.pendingDrawCount)
    ensures r.Success? ==> r.value.playDirection == Number(game.playDirection)
    ensures r.Success? ==> r.value.winnerId == Undefined && r.value.state == Undefined
  {
    var hands := PlayerHands(table.rows, catalog, gameId);
    if hands.Failure? {
      return Failure(NoRows);
    }
    var current := game.Select([CurrentTurnUserId]);
    if players == [] {
      return Failure(NoRows);
    }
    var topDiscard := TopDiscard(table.rows, catalog, gameId);
    var gameState := game.GameStateRow();
    r := Success(Snapshot(hands.value, Lookup(current, CurrentTurnUserId), players, topDiscard,
      Lookup(gameState, ActiveColour), Lookup(gameState, PendingDrawCount), Lookup(gameState, PlayDirection),
      Lookup(gameState, WinnerId), Lookup(gameState, State)));
  }
}
