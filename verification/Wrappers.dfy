/** Outcome types shared by the modules of this project. */
module Wrappers {

  datatype Option<+T> = None | Some(value: T)

  datatype Result<+T, +E> = Ok(value: T) | Err(error: E)

  /** The two maps agree everywhere but at one key. */
  ghost predicate OthersKept<K(!new), V(!new)>(before: map<K, V>, after: map<K, V>, key: K) {
    && (forall x :: x != key ==> (x in before <==> x in after))
    && (forall x :: x != key && x in before ==> after[x] == before[x])
  }
}
