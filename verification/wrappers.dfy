/** The optional value used for the game's nullable fields (`myPlayerId`,
    `currentDrawer`, `votedWinner`) and for lookups that may find nothing. */
module Wrappers {

  datatype Option<+T> = None | Some(value: T)

}
