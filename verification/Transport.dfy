/** The key of a transport session, which the modelled code only compares, copies and builds. */
module Transport {
  datatype SessionKey = SessionKey(room: nat, worker: nat, connection: nat, user: int)
}
