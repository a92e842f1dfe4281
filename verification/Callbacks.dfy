/** What the on_data_available callbacks of server and client have in common: a loop that tests the
    stop flag, takes a sample without a lock, and enters a critical section if it is usable. */
module Callbacks {

  /** Where a call stands: about to test the stop flag, past the test and about to take a sample,
      with a taken sample in hand, or returned. */
  datatype Call<T> = AtTest | AtTake | Holding(item: T) | Over {
    /** The call is past its test. */
    predicate InFlight() { AtTake? || Holding? }
  }

  function Put<T>(q: seq<T>, i: nat, x: T): seq<T>
  {
    if i < |q| then q[i := x] else q
  }
}
