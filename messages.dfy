/** Identifiers and small wrappers shared by the central server and the game server. */
module Messages {

  /** A participant or game identifier: a wrapper around a 128-bit UUID. Only equality is ever used. */
  datatype Id = Id(uuid: bv128)

  /** Users are identified by the same UUID-backed identifier. */
  type UserId = Id

  datatype Option<T> = None | Some(value: T)
}
