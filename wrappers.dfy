/** The JavaScript `null` of the game server, as an explicit optional value. */
module Wrappers {

  datatype Option<+T> = None | Some(value: T)
}
