/** The errors the engine throws, one constructor per distinct failure. */
module Errors {

  datatype Error =
    | GameOver          // "Game is already over"
    | NotYourTurn       // "Not your turn"
    | CardNotInHand     // "Card not in your hand"
    | NoTopCard         // reading the symbol of a missing top discard card
    | InvalidPlay       // "Invalid card play: ..."
    | MustChooseColour  // "Must choose a color for Wildcard" / "... Wild +4"
    | NoRows            // a query run with `many` returned no rows
    | ColourRejected    // the `active_color` column's type has no value 'black'
}
