/** Identifiers. The program uses UUIDs and live WebSocket objects; the modules below
    only ever compare them for equality, so natural numbers stand for both. */
module Ids {
  type ProjectId = nat
  type UserId = nat
  type SocketId = nat

  datatype Option<+T> = None | Some(value: T)

  ghost predicate NoDuplicates<T>(xs: seq<T>) {
    forall i, j :: 0 <= i < j < |xs| ==> xs[i] != xs[j]
  }
}
