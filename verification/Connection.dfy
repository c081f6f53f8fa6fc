/** The data-plane state of an established connection, shared by both event loops. */
module Connection {
  datatype DataState = Reading(filled: nat) | Writing(bufIdx: nat, written: nat, total: nat)
}
