/** The reporter object, one caller at a time: its counters updated in place. */
module ProgressClass {
  import opened Progress

  class CliReporter {
    var total: Int32
    var completed: Int32
    var lastPercent: int
    var printed: seq<int>

    constructor ()
      ensures total == 0 && completed == 0 && lastPercent == -1 && printed == []
    {
      total, completed, lastPercent, printed := 0, 0, -1, [];
    }

    method Start(items: Int32)
      modifies this
      ensures total == items && completed == 0 && lastPercent == -1 && printed == old(printed)
    {
      total, completed, lastPercent := items, 0, -1;
    }

    /** compare_exchange_weak: it may also fail when the value is the expected one. */
    method Exchange(expected: int, desired: int, spurious: bool) returns (ok: bool, seen: int)
      modifies this`lastPercent
      ensures ok <==> old(lastPercent) == expected && !spurious
      ensures lastPercent == if ok then desired else old(lastPercent)
      ensures seen == old(lastPercent)
    {
      ok, seen := lastPercent == expected && !spurious, lastPercent;
      if ok {
        lastPercent := desired;
      }
    }

    /** One call with any number of spurious failures: it publishes and prints its percentage exactly if that is new,
        and never lowers the bar. */
    method Tick(spuriousFailures: nat)
      modifies this`completed, this`lastPercent, this`printed
      ensures completed == Wrap(old(completed) + 1)
      ensures var p := PercentOf(total, completed);
              && lastPercent == (if p > old(lastPercent) then p else old(lastPercent))
              && printed == old(printed) + (if p > old(lastPercent) then [p] else [])
    {
      completed := Wrap(completed + 1);
      var percent := PercentOf(total, completed);
      var expected := lastPercent;
      var failures := spuriousFailures;
      assert printed + [] == printed;
      while percent > expected
        invariant completed == Wrap(old(completed) + 1)
        invariant expected == lastPercent == old(lastPercent) && printed == old(printed)
        decreases failures
      {
        var ok;
        ok, expected := Exchange(expected, percent, failures > 0);
        if ok {
          printed := printed + [percent];
          break;
        }
        failures := failures - 1;
      }
    }
  }
}
