/** Definitions shared by the components. */
module Common {
  datatype Option<T> = None | Some(value: T)

  const MAX_NUM_UE := 3

  lemma Associate<T>(a: seq<T>, b: seq<T>, c: seq<T>)
    ensures (a + b) + c == a + (b + c)
  {
  }
}
