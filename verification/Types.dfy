/** Names shared by the gateway and the logic server. */
module Types {
  /** User id; the gateway keeps 0 for a socket that has not logged in. */
  type Uid = int

  /** Identity of one WebSocket connection. */
  type Socket = nat

  /** Number of values of `size_t`. */
  const SIZE_RANGE := 0x1_0000_0000_0000_0000
}
