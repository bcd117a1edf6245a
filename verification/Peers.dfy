/** Whom a machine talks to in a round. */
module Peers {
  datatype Peer = Nobody | Machine(rank: nat)
}
