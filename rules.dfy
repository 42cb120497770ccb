/**
 * The pure UNO rules of the game service: which plays are legal, what a played
 * card does to the shared game fields, and whose turn comes next.
 */
module Rules {
  import opened Wrappers
  import opened Errors
  import opened Cards

  predicate IsDrawCard(s: Symbol) { s == PlusTwo || s == PlusFour }

  predicate IsWild(s: Symbol) { s == Wildcard || s == PlusFour }

  /** The colour a play must match: the active colour when one is set, else the top card's. */
  function EffectiveColour(activeColour: Option<Colour>, top: Card): (r: Colour)
    ensures activeColour.Some? ==> r == activeColour.value
    ensures r == top.colour || Some(r) == activeColour
  {
    if activeColour.Some? then activeColour.value else top.colour
  }

  /** `validateCardPlay`: may `candidate` be played on `top`? */
  function ValidateCardPlay(candidate: Card, top: Card, activeColour: Option<Colour>, pendingDrawCount: int): (r: bool)
    ensures candidate.symbol == PlusFour ==> r
    ensures r ==> candidate.symbol in {PlusTwo, PlusFour, Wildcard}
                  || candidate.colour == EffectiveColour(activeColour, top) || candidate.symbol == top.symbol
  {
    var effectiveColour := EffectiveColour(activeColour, top);
    if pendingDrawCount > 0 then
      candidate.symbol == PlusTwo || candidate.symbol == PlusFour
    else if candidate.symbol == Wildcard || candidate.symbol == PlusFour then
      true
    else
      candidate.colour == effectiveColour || candidate.symbol == top.symbol
  }

  /** While draws are pending, a plus-two or plus-four is accepted whatever the top card and colour. */
  lemma PendingDrawsAcceptDrawCards(candidate: Card, top: Card, activeColour: Option<Colour>, pending: int)
    requires pending > 0 && IsDrawCard(candidate.symbol)
    ensures ValidateCardPlay(candidate, top, activeColour, pending)
  {
  }

  /** With nothing pending, a card showing the top card's symbol is legal whatever the colours. */
  lemma SymbolMatchLegal(candidate: Card, top: Card, activeColour: Option<Colour>, pending: int)
    requires pending <= 0 && candidate.symbol == top.symbol
    ensures ValidateCardPlay(candidate, top, activeColour, pending)
  {
  }

  /** While draws are pending, numbers, skip, swap and wildcard are refused whatever they match. */
  lemma PendingDrawsRefuseOtherCards(candidate: Card, top: Card, activeColour: Option<Colour>, pending: int)
    requires pending > 0 && !IsDrawCard(candidate.symbol)
    ensures !ValidateCardPlay(candidate, top, activeColour, pending)
  {
  }

  /** With nothing pending a wildcard or plus-four is legal on any top card and colour. */
  lemma WildsAlwaysLegal(candidate: Card, top: Card, activeColour: Option<Colour>, pending: int)
    requires pending <= 0 && IsWild(candidate.symbol)
    ensures ValidateCardPlay(candidate, top, activeColour, pending)
  {
  }

  /** The active colour overrides the top card's colour; the top symbol still matches. */
  lemma ActiveColourOverridesTop(candidate: Card, top: Card, c: Colour, pending: int)
    requires pending <= 0 && !IsWild(candidate.symbol) && candidate.symbol != top.symbol
    ensures ValidateCardPlay(candidate, top, Some(c), pending) <==> candidate.colour == c
    ensures ValidateCardPlay(candidate, top, None, pending) <==> candidate.colour == top.colour
  {
  }

  datatype Effects = Effects(activeColour: Colour, pendingDrawCount: int, directionMultiplier: int, skipCount: nat)

  /**
   * What a played card does, column by column: the new active colour is the
   * chosen one for a wild card and the card's own otherwise; draw cards add to
   * the pending count and every other card clears it; only a swap reverses the
   * direction and only a skip skips a seat. A wild card without a chosen colour
   * is an error.
   */
  function EffectsOf(symbol: Symbol, cardColour: Colour, chosenColour: Option<Colour>, currentPendingDraws: int)
    : (r: Result<Effects, Error>)
    ensures r.Failure? <==> IsWild(symbol) && chosenColour.None?
    ensures r.Failure? ==> r.error == MustChooseColour
    ensures r.Success? ==> r.value.activeColour == if IsWild(symbol) then chosenColour.value else cardColour
    ensures r.Success? ==>
      r.value.pendingDrawCount == (if symbol == PlusTwo then currentPendingDraws + 2
                                   else if symbol == PlusFour then currentPendingDraws + 4
                                   else 0)
    ensures r.Success? ==> r.value.directionMultiplier == if symbol == Swap then -1 else 1
    ensures r.Success? ==> r.value.skipCount == if symbol == Skip then 1 else 0
  {
    match symbol
    case PlusTwo => Success(Effects(cardColour, currentPendingDraws + 2, 1, 0))
    case PlusFour =>
      if chosenColour.None? then Failure(MustChooseColour)
      else Success(Effects(chosenColour.value, currentPendingDraws + 4, 1, 0))
    case Wildcard =>
      if chosenColour.None? then Failure(MustChooseColour)
      else Success(Effects(chosenColour.value, 0, 1, 0))
    case Skip => Success(Effects(cardColour, 0, 1, 1))
    case Swap => Success(Effects(cardColour, 0, -1, 0))
    case _ => Success(Effects(cardColour, 0, 1, 0))
  }

  /**
   * `calculateCardEffects`: starts from "no colour, pending unchanged, forward,
   * no skip" and lets the switch over the symbol overwrite those locals.
   */
  method CalculateCardEffects(symbol: Symbol, cardColour: Colour, chosenColour: Option<Colour>, currentPendingDraws: int)
    returns (r: Result<Effects, Error>)
    ensures r == EffectsOf(symbol, cardColour, chosenColour, currentPendingDraws)
  {
    var activeColour: Option<Colour> := None;
    var pendingDrawCount := currentPendingDraws;
    var directionMultiplier := 1;
    var skipCount := 0;
    match symbol {
      case PlusTwo =>
        pendingDrawCount := pendingDrawCount + 2;
        activeColour := Some(cardColour);
      case PlusFour =>
        pendingDrawCount := pendingDrawCount + 4;
        activeColour := chosenColour;
        if activeColour.None? { return Failure(MustChooseColour); }
      case Wildcard =>
        activeColour := chosenColour;
        if activeColour.None? { return Failure(MustChooseColour); }
        pendingDrawCount := 0;
      case Skip =>
        skipCount := 1;
        pendingDrawCount := 0;
        activeColour := Some(cardColour);
      case Swap =>
        directionMultiplier := -1;
        pendingDrawCount := 0;
        activeColour := Some(cardColour);
      case _ =>
        pendingDrawCount := 0;
        activeColour := Some(cardColour);
    }
    r := Success(Effects(activeColour.value, pendingDrawCount, directionMultiplier, skipCount));
  }

  /** The seat `1 + skipCount` places from `current` in `direction`, taken modulo the table size. */
  function NextIndex(current: int, playerCount: int, direction: int, skipCount: int): (r: int)
    requires playerCount > 0
    ensures 0 <= r < playerCount
  {
    (current + (1 + skipCount) * direction) % playerCount
  }

  /**
   * `calculateNextPlayer`: adds the moves, lifts a negative index by whole table
   * sizes and then reduces it modulo the number of players.
   */
  method CalculateNextPlayer(currentIndex: int, playerCount: int, direction: int, skipCount: int)
    returns (nextIndex: int)
    requires playerCount > 0
    ensures nextIndex == NextIndex(currentIndex, playerCount, direction, skipCount)
    ensures 0 <= nextIndex < playerCount
  {
    var moves := 1 + skipCount;
    nextIndex := currentIndex + moves * direction;
    ghost var target := (currentIndex + moves * direction) % playerCount;
    while nextIndex < 0
      invariant nextIndex % playerCount == target
      decreases -nextIndex
    {
      ModShift(nextIndex, playerCount);
      nextIndex := nextIndex + playerCount;
    }
    nextIndex := nextIndex % playerCount;
  }

  /** Shifting the current seat by a whole round does not change the next seat. */
  lemma NextIndexWrap(current: int, playerCount: int, direction: int, skipCount: int)
    requires playerCount > 0
    ensures NextIndex(current + playerCount, playerCount, direction, skipCount)
         == NextIndex(current, playerCount, direction, skipCount)
  {
    var x := current + (1 + skipCount) * direction;
    assert current + playerCount + (1 + skipCount) * direction == x + playerCount;
    ModShift(x, playerCount);
  }

  /** Euclidean remainder is determined by any quotient-remainder decomposition. */
  lemma UniqueRemainder(a: int, n: int, q: int, r: int)
    requires n > 0 && 0 <= r < n && a == n * q + r
    ensures a % n == r
  {
    var k := a / n - q;
    assert n * k == r - a % n;
  }

  /** Adding one whole round to an index leaves its remainder unchanged. */
  lemma ModShift(x: int, n: int)
    requires n > 0
    ensures (x + n) % n == x % n
  {
    assert x + n == n * (x / n + 1) + x % n;
    UniqueRemainder(x + n, n, x / n + 1, x % n);
  }

  /** One seat on from `seat` in `direction`, around a table of `playerCount`. */
  function Step(seat: int, playerCount: int, direction: int): (r: int)
    requires playerCount > 0
    ensures 0 <= r < playerCount
  {
    (seat + direction) % playerCount
  }

  /** Walking `k` single seats from `seat`; after no step the seat is only brought into range. */
  function Walk(seat: int, playerCount: int, direction: int, k: nat): (r: int)
    requires playerCount > 0
    ensures 0 <= r < playerCount
  {
    if k == 0 then seat % playerCount else Step(Walk(seat, playerCount, direction, k - 1), playerCount, direction)
  }

  /** Reducing before adding gives the same remainder as adding first. */
  lemma ModAdd(x: int, d: int, n: int)
    requires n > 0
    ensures (x % n + d) % n == (x + d) % n
  {
    var q := x / n;
    var q' := (x % n + d) / n;
    var r' := (x % n + d) % n;
    assert x % n + d == n * q' + r';
    assert x + d == n * (q + q') + r' by {
      assert x == n * q + x % n;
      assert n * (q + q') == n * q + n * q';
    }
    UniqueRemainder(x + d, n, q + q', r');
  }

  /** The distance covered by `k` single seats in `direction`, added up one seat at a time. */
  function Jump(k: nat, direction: int): int
  {
    if k == 0 then 0 else Jump(k - 1, direction) + direction
  }

  lemma {:induction false} JumpIsProduct(k: nat, direction: int)
    ensures Jump(k, direction) == k * direction
  {
    if k > 0 {
      JumpIsProduct(k - 1, direction);
      assert k * direction == (k - 1) * direction + direction;
    }
  }

  /** Walking `k` seats lands where one jump over those `k` seats does. */
  lemma {:induction false} WalkIsJump(seat: int, playerCount: int, direction: int, k: nat)
    requires playerCount > 0
    ensures Walk(seat, playerCount, direction, k) == (seat + Jump(k, direction)) % playerCount
  {
    if k > 0 {
      var x := seat + Jump(k - 1, direction);
      var w := Walk(seat, playerCount, direction, k - 1);
      WalkIsJump(seat, playerCount, direction, k - 1);
      assert w == x % playerCount;
      assert Walk(seat, playerCount, direction, k) == Step(w, playerCount, direction);
      ModAdd(x, direction, playerCount);
      assert Step(w, playerCount, direction) == (x + direction) % playerCount;
      assert x + direction == seat + Jump(k, direction);
    }
  }

  /** The next seat is the one reached by walking `1 + skipCount` single seats in the play direction. */
  lemma NextIndexWalksSeats(current: int, playerCount: int, direction: int, skipCount: nat)
    requires playerCount > 0
    ensures NextIndex(current, playerCount, direction, skipCount) == Walk(current, playerCount, direction, 1 + skipCount)
  {
    WalkIsJump(current, playerCount, direction, 1 + skipCount);
    JumpIsProduct(1 + skipCount, direction);
  }

  /** With two players a skip of one seat hands the turn back to the same player in either direction. */
  lemma TwoPlayerSkipReturnsTurn(current: int, direction: int)
    requires 0 <= current < 2 && (direction == 1 || direction == -1)
    ensures NextIndex(current, 2, direction, 1) == current
  {
  }

  /** A move of one seat without skipping never stays put when more than one player sits at the table. */
  lemma OneSeatMoves(current: int, playerCount: int, direction: int)
    requires 1 < playerCount && 0 <= current < playerCount && (direction == 1 || direction == -1)
    ensures NextIndex(current, playerCount, direction, 0) != current
    ensures direction == 1 ==> NextIndex(current, playerCount, direction, 0) == if current == playerCount - 1 then 0 else current + 1
    ensures direction == -1 ==> NextIndex(current, playerCount, direction, 0) == if current == 0 then playerCount - 1 else current - 1
  {
  }
}
