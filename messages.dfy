/** The wire messages exchanged by a client and the server. */
module Messages {
  import opened DiffEngine

  /** One diff message: a delta stamped with the versions it was computed against. */
  datatype Edit = Edit(serverVersion: int, localVersion: int, diff: Delta)

  /** What a client sends: every unacknowledged edit plus its version numbers. */
  datatype EditMessage = EditMessage(room: string, edits: seq<Edit>, localVersion: int, serverVersion: int)

  /** What the server sends back: its unacknowledged edits plus its version numbers. */
  datatype Reply = Reply(localVersion: int, serverVersion: int, edits: seq<Edit>)
}
