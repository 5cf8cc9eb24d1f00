/** Conversations over a TCP connection: who says what, in which order. */
module Conversation {
  import opened Base

  datatype Direction = ClientToServer | ServerToClient

  datatype Turn = Turn(direction: Direction, payload: bytes)

  function Opposite(d: Direction): Direction
  {
    if d == ClientToServer then ServerToClient else ClientToServer
  }
}
