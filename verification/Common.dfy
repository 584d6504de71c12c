/** What several modules share. */
module Common {

  datatype Option<+T> = None | Some(value: T)

  lemma Reassociate<T>(x: seq<T>, y: seq<T>, z: seq<T>)
    ensures (x + y) + z == x + (y + z)
  {
  }
}
