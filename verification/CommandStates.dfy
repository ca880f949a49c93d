/** The life of a command and the places it can live in. */
module CommandStates {
  /** The order in which the source numbers them. */
  datatype CmdState = Init | Allocated | Submitted | Completed | ToBeCompleted

  /** A command lives at its id, or in the queue's one conflict slot. */
  datatype Slot = Resident(cid: nat) | Conflict
}
