/** The two counters a pod reports, and the wait group its batches wait on. */
module Counting {

  class Counter {
    var hopeCount: int
    var pushedCount: int

    constructor ()
      ensures hopeCount == 0 && pushedCount == 0
    {
      hopeCount, pushedCount := 0, 0;
    }

    method IncrPushedCount()
      modifies this`pushedCount
      ensures pushedCount == old(pushedCount) + 1
    {
      pushedCount := pushedCount + 1;
    }

    method AddHopeCount(delta: int)
      modifies this`hopeCount
      ensures hopeCount == old(hopeCount) + delta
    {
      hopeCount := hopeCount + delta;
    }

    function GetCount(): (int, int)
      reads this
    {
      (hopeCount, pushedCount)
    }

    /** One reset event of the listening loop: any event on the key, whatever it says. */
    method Reset()
      modifies this
      ensures GetCount() == (0, 0)
    {
      hopeCount := 0;
      pushedCount := 0;
    }
  }

  class WaitGroup {
    var count: int

    constructor ()
      ensures count == 0
    {
      count := 0;
    }

    method Add(n: int)
      modifies this
      ensures count == old(count) + n
    {
      count := count + n;
    }

    method Done()
      modifies this
      ensures count == old(count) - 1
    {
      count := count - 1;
    }
  }
}
