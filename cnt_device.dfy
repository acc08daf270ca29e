/**
  The encoder counter driver of cnt_device.cpp: an `initialized_` flag, a
  cached `count_` reduced modulo the counter period, and the wrapping 32-bit
  difference between successive counts. The hardware counter reading and the
  HAL status of starting and stopping the encoder are parameters.
 */
module CntDevice {
  import opened Machine
  import opened Optional
  import Division

  /** `current % counter_period_`: the reading folded into one counter period. */
  function Reduce(current: u32, counterPeriod: u32): (count: u32)
    requires counterPeriod != 0
    ensures count < counterPeriod && count <= current
    ensures current < counterPeriod ==> count == current
  {
    ReduceBounds(current, counterPeriod);
    current % counterPeriod
  }

  lemma ReduceBounds(a: int, m: int)
    requires a >= 0 && m > 0
    ensures 0 <= a % m < m && a % m <= a
    ensures a < m ==> a % m == a
  {
    Division.DivBounds(a, m);
    if a < m {
      Division.DivUnique(a, m, 0, a);
    }
  }

  /** `count - prev_count` in 32-bit arithmetic: the step that takes `prev` to `next` modulo 2^32. */
  function Difference(prev: u32, next: u32): (d: u32)
    ensures Wrap(prev + d) == next
    ensures prev <= next ==> d == next - prev
    ensures next < prev ==> d == next - prev + TWO_TO_THE_32
  {
    Wrap(next - prev)
  }

  /** The difference is the only 32-bit step from `prev` to `next`. */
  lemma DifferenceUnique(prev: u32, next: u32, d: u32)
    requires Wrap(prev + d) == next
    ensures d == Difference(prev, next)
  {
    if prev + d >= TWO_TO_THE_32 {
      assert next == prev + d - TWO_TO_THE_32;
    }
  }

  /** Differences add up along successive counts, modulo 2^32. */
  lemma DifferencesAdd(a: u32, b: u32, c: u32)
    ensures Wrap(Difference(a, b) + Difference(b, c)) == Difference(a, c)
  {
    DifferenceUnique(a, c, Wrap(Difference(a, b) + Difference(b, c)));
  }

  class CntDevice {
    /** `timer_ != nullptr`. */
    const hasTimer: bool
    const counterPeriod: u32
    var initialized: bool
    var count: u32

    /**
      The flag is only ever set with a timer present, so the counter register
      is read only from a real timer.
     */
    predicate Valid()
      reads this
    {
      initialized ==> hasTimer
    }

    /** The constructor stores its arguments and calls `initialize`, whose encoder start reports `startOk`. */
    constructor(hasTimer: bool, counterPeriod: u32, startOk: bool)
      ensures this.hasTimer == hasTimer && this.counterPeriod == counterPeriod
      ensures initialized == (hasTimer && startOk) && count == 0
      ensures Valid()
    {
      this.hasTimer := hasTimer;
      this.counterPeriod := counterPeriod;
      initialized := false;
      count := 0;
      new;
      Initialize(startOk);
    }

    /** `initialize`: sets the flag only with a timer whose encoder start reports OK. */
    method Initialize(startOk: bool)
      modifies this`initialized
      ensures initialized == (old(initialized) || (hasTimer && startOk))
      ensures old(Valid()) ==> Valid()
    {
      if hasTimer {
        if startOk {
          initialized := true;
        }
      }
    }

    /** `deinitialize`: clears the flag only with a timer whose encoder stop reports OK. */
    method Deinitialize(stopOk: bool)
      modifies this`initialized
      ensures initialized == (old(initialized) && !(hasTimer && stopOk))
      ensures old(Valid()) ==> Valid()
    {
      if hasTimer {
        if stopOk {
          initialized := false;
        }
      }
    }

    /**
      `get_count` with the counter reading `current`: none, and the cache
      untouched, while not initialized; otherwise the reading reduced modulo
      the counter period, which is also cached.
     */
    method GetCount(current: u32) returns (r: Option<u32>)
      requires Valid() && (initialized ==> counterPeriod != 0)
      modifies this`count
      ensures r.Some? ==> hasTimer
      ensures !initialized ==> r == None && count == old(count)
      ensures initialized ==> count == Reduce(current, counterPeriod) && r == Some(count)
    {
      if !initialized {
        return None;
      }
      count := current % counterPeriod;
      return Some(count);
    }

    /**
      `get_count_difference`: the new count minus the count cached before the
      call, in 32-bit arithmetic; none, and the cache untouched, while not
      initialized.
     */
    method GetCountDifference(current: u32) returns (r: Option<u32>)
      requires Valid() && (initialized ==> counterPeriod != 0)
      modifies this`count
      ensures r.Some? ==> hasTimer
      ensures !initialized ==> r == None && count == old(count)
      ensures initialized ==>
        count == Reduce(current, counterPeriod) && r == Some(Difference(old(count), count))
    {
      var prevCount := count;
      var c := GetCount(current);
      r := if c.Some? then Some(Difference(prevCount, c.value)) else None;
    }
  }
}
