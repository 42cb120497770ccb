/**
 * The row of the `games` table that the game service reads and updates: the
 * lifecycle state, whose turn it is, the active colour, the number of pending
 * draws, the play direction and the winner. Each UPDATE statement is a method
 * that changes exactly the columns its SET clause names.
 */
module Games {
  import opened Wrappers
  import opened Cards

  datatype GameState = Lobby | Active | Completed

  function StateName(s: GameState): string
  {
    match s
    case Lobby => "lobby"
    case Active => "active"
    case Completed => "completed"
  }

  /** The columns of a games row that the service touches. */
  datatype Column = ActiveColour | PendingDrawCount | PlayDirection | WinnerId | State | CurrentTurnUserId

  /**
   * A field of a JavaScript result object: SQL NULL arrives as `null`, and a
   * column the query did not select is `undefined`.
   */
  datatype Value = Undefined | Null | Number(n: int) | Text(t: string)

  /** The columns GET_GAME_STATE selects. */
  const GameStateColumns: seq<Column> := [ActiveColour, PendingDrawCount, PlayDirection]

  /** A result row: the selected columns and nothing else. */
  type ResultRow = map<Column, Value>

  /** Reading a property of the result object. */
  function Lookup(row: ResultRow, col: Column): (v: Value)
    ensures col !in row ==> v == Undefined
  {
    if col in row then row[col] else Undefined
  }

  /** The values of the columns at one moment. */
  datatype GameFields = GameFields(
    state: GameState,
    currentTurn: Option<int>,
    activeColour: Option<Colour>,
    pendingDrawCount: int,
    playDirection: int,
    winner: Option<int>)

  class GameRecord {
    var state: GameState
    var currentTurn: Option<int>
    var activeColour: Option<Colour>
    var pendingDrawCount: int
    var playDirection: int
    var winner: Option<int>

    function Fields(): GameFields
      reads this
    {
      GameFields(state, currentTurn, activeColour, pendingDrawCount, playDirection, winner)
    }

    /** A new game: in the lobby, nobody's turn, no colour, nothing pending, clockwise, no winner. */
    constructor ()
      ensures Fields() == GameFields(Lobby, None, None, 0, 1, None)
    {
      state := Lobby;
      currentTurn := None;
      activeColour := None;
      pendingDrawCount := 0;
      playDirection := 1;
      winner := None;
    }

    /** The value a query selecting `col` sees; a nullable column is NULL exactly when it is unset. */
    function Read(col: Column): (v: Value)
      reads this
      ensures v != Undefined
      ensures v == Null <==>
        (col == ActiveColour && activeColour.None?)
        || (col == WinnerId && winner.None?)
        || (col == CurrentTurnUserId && currentTurn.None?)
    {
      match col
      case ActiveColour => if activeColour.Some? then Text(ColourName(activeColour.value)) else Null
      case PendingDrawCount => Number(pendingDrawCount)
      case PlayDirection => Number(playDirection)
      case WinnerId => if winner.Some? then Number(winner.value) else Null
      case State => Text(StateName(state))
      case CurrentTurnUserId => if currentTurn.Some? then Number(currentTurn.value) else Null
    }

    /** A SELECT of `cols` from this row: exactly those columns, each with its current value. */
    function Select(cols: seq<Column>): (r: ResultRow)
      reads this
      ensures forall c :: c in r <==> c in cols
      ensures forall c :: c in cols ==> Lookup(r, c) == Read(c)
      ensures forall c :: c !in cols ==> Lookup(r, c) == Undefined
    {
      map c | c in cols :: Read(c)
    }

    /** SET_GAME_STATE: only `state` changes. */
    method SetGameState(s: GameState)
      modifies this
      ensures Fields() == old(Fields()).(state := s)
    {
      state := s;
    }

    /** SET_CURRENT_PLAYER: only `current_turn_user_id` changes. */
    method SetCurrentPlayer(userId: int)
      modifies this
      ensures Fields() == old(Fields()).(currentTurn := Some(userId))
    {
      currentTurn := Some(userId);
    }

    /**
     * UPDATE_GAME_STATE: the colour, the pending count and the direction; turn,
     * state and winner stay. The `active_color` column only holds red, blue,
     * green and yellow, so black is rejected and the row stays as it was.
     */
    method UpdateGameState(colour: Option<Colour>, pending: int, direction: int) returns (stored: bool)
      modifies this
      ensures stored <==> colour != Some(Black)
      ensures stored ==> Fields() == old(Fields()).(activeColour := colour, pendingDrawCount := pending, playDirection := direction)
      ensures !stored ==> Fields() == old(Fields())
    {
      if colour == Some(Black) {
        return false;
      }
      activeColour, pendingDrawCount, playDirection := colour, pending, direction;
      stored := true;
    }

    /** RESET_PENDING_DRAWS: the pending count becomes 0 and nothing else changes. */
    method ResetPendingDraws()
      modifies this
      ensures Fields() == old(Fields()).(pendingDrawCount := 0)
    {
      pendingDrawCount := 0;
    }

    /** ADD_PENDING_DRAWS: the pending count grows by exactly `count` and nothing else changes. */
    method AddPendingDraws(count: int)
      modifies this
      ensures Fields() == old(Fields()).(pendingDrawCount := old(pendingDrawCount) + count)
    {
      pendingDrawCount := pendingDrawCount + count;
    }

    /** `setWinner`, whose SQL is not defined anywhere: only the winner is recorded. */
    method SetWinner(userId: int)
      modifies this
      ensures Fields() == old(Fields()).(winner := Some(userId))
    {
      winner := Some(userId);
    }

    /** GET_GAME_STATE: the active colour, the pending count and the direction. */
    function GameStateRow(): (r: ResultRow)
      reads this
      ensures Lookup(r, ActiveColour) == Read(ActiveColour)
      ensures Lookup(r, PendingDrawCount) == Number(pendingDrawCount)
      ensures Lookup(r, PlayDirection) == Number(playDirection)
      ensures Lookup(r, WinnerId) == Undefined && Lookup(r, State) == Undefined
    {
      Select(GameStateColumns)
    }
  }

  /** playCard's `winner_id !== null` test on a result row. */
  function WinnerGuard(row: ResultRow): (r: bool)
    ensures WinnerId !in row ==> r
    ensures WinnerId in row ==> (r <==> row[WinnerId] != Null)
  {
    Lookup(row, WinnerId) != Null
  }

  /**
   * Because GET_GAME_STATE does not select `winner_id`, the property is
   * `undefined`, which is never `null`: on its row the guard fires for every
   * game, also for one that nobody has won, so every play is refused.
   */
  lemma AsWrittenGuardRefusesEveryGame(g: GameRecord)
    ensures WinnerGuard(g.GameStateRow())
  {
  }

  /** The columns the result type of `getGameState` declares: the three selected ones plus winner and state. */
  const DeclaredGameStateColumns: seq<Column> := GameStateColumns + [WinnerId, State]

  /** On a row that selects the declared columns the guard fires exactly when the game has a winner. */
  lemma CorrectedGuardMatchesWinner(g: GameRecord)
    ensures WinnerGuard(g.Select(DeclaredGameStateColumns)) <==> g.winner.Some?
  {
  }
}
