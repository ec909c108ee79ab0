/** Optional values, results that carry either a value or an error, store writes, contract ids, and fresh numbers. */
module Wrappers {
  /** The id of an RGB contract. */
  type Contract = nat

  /** Some number is above every one of a finite set. */
  lemma {:induction false} AboveAll(s: set<nat>) returns (n: nat)
    ensures forall k <- s :: k < n
  {
    if s == {} {
      n := 0;
    } else {
      var k :| k in s;
      var m := AboveAll(s - {k});
      n := if k < m then m else k + 1;
      assert forall j <- s :: j == k || j in s - {k};
    }
  }

  datatype Option<+T> = None | Some(value: T)

  datatype Result<+T, +E> = Ok(value: T) | Err(error: E)

  /** How a write to the store ended. One that reported an error may have been applied all the same. */
  datatype StoreWrite = Stored | Errored(applied: bool)

  /** What is in the store after a write. */
  function AfterWrite<T>(before: T, value: T, write: StoreWrite): T {
    if write.Stored? || write.applied then value else before
  }
}
