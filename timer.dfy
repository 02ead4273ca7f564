/**
 * `Timer`: a stopwatch that records a start and an end time once each and
 * reports the elapsed milliseconds. The clock (`Date.now()`) is the `now`
 * argument of the methods that read it.
 */
module Timers {
  import opened Wrappers
  import Text

  /** `if (this.startTime)`: a time counts as set when it is present and not zero. */
  predicate IsSet(t: Option<int>)
  {
    t.Some? && t.value != 0
  }

  /** `toString()` of a timer with these times. */
  function Describe(startTime: Option<int>, endTime: Option<int>): (s: string)
    ensures s == "[Timer]" <==> !(IsSet(startTime) && IsSet(endTime))
    ensures IsSet(startTime) && IsSet(endTime) ==>
              |s| > 2 && s[|s| - 2..] == "ms" && Text.ParseInt(s[..|s| - 2]) == Some(endTime.value - startTime.value)
  {
    if !IsSet(endTime) || !IsSet(startTime) then "[Timer]"
    else
      var d := Text.IntToString(endTime.value - startTime.value);
      Text.IntStringRoundTrip(endTime.value - startTime.value);
      var s := d + "ms";
      assert s[..|s| - 2] == d;
      assert s[|s| - 1] == 's';
      s
  }

  class Timer {
    var startTime: Option<int>
    var endTime: Option<int>

    /** `new Timer(start)`: started at `now` unless `start` is false. */
    constructor (start: bool, now: int)
      ensures startTime == (if start then Some(now) else None) && endTime == None
    {
      startTime := None;
      endTime := None;
      new;
      if start {
        Start(now);
      }
    }

    /** `start()`: records `now` unless a start time is already set. */
    method Start(now: int)
      modifies this
      ensures startTime == (if IsSet(old(startTime)) then old(startTime) else Some(now))
      ensures endTime == old(endTime)
    {
      if IsSet(startTime) {
        return;
      }
      startTime := Some(now);
    }

    /**
     * `end()`: the first call records `now` and returns the description;
     * a later call returns undefined and keeps the first end time.
     */
    method End(now: int) returns (r: Option<string>)
      modifies this
      ensures IsSet(old(endTime)) ==> r == None && endTime == old(endTime)
      ensures !IsSet(old(endTime)) ==> endTime == Some(now) && r == Some(Describe(startTime, Some(now)))
      ensures startTime == old(startTime)
    {
      if IsSet(endTime) {
        return None;
      }
      endTime := Some(now);
      var s := ToString();
      return Some(s);
    }

    /** `toString()`: the elapsed time in milliseconds once both ends are set. */
    function ToString(): (s: string)
      reads this
      ensures s == "[Timer]" <==> !(IsSet(startTime) && IsSet(endTime))
      ensures IsSet(startTime) && IsSet(endTime) ==>
                |s| > 2 && s[|s| - 2..] == "ms" && Text.ParseInt(s[..|s| - 2]) == Some(endTime.value - startTime.value)
    {
      Describe(startTime, endTime)
    }
  }

  /**
   * A timer started at a non-zero time and ended twice: the first `end`
   * describes the elapsed time, the second returns undefined.
   */
  method StartThenEnd(t0: int, t1: int, t2: int) returns (first: Option<string>, second: Option<string>)
    requires t0 != 0 && t1 != 0
    ensures first.Some? && |first.value| > 2 && Text.ParseInt(first.value[..|first.value| - 2]) == Some(t1 - t0)
    ensures second == None
  {
    var timer := new Timer(true, t0);
    first := timer.End(t1);
    second := timer.End(t2);
  }
}
