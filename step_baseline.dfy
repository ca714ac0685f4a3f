/** How the main screen turns the device's step counter, which counts from the
    last reboot and is never reset by the application, into "steps today".

    The state is a baseline (the counter reading that counts as zero; -1 when
    never set) and the calendar date on which it was set. Every reading takes
    exactly one of four branches, and the steps shown are the reading minus the
    baseline, never negative. Dates are compared only for equality. */
module StepBaseline {

  /** The baseline's "never set" value, also the default when the key is missing. */
  const UNSET: int := -1

  datatype Baseline = Baseline(stepsAtReset: int, lastSavedDate: string)

  /** The branch a reading takes. */
  datatype Branch =
    | FirstRun     // no baseline yet
    | DayRollover  // the baseline was set on another date
    | Reboot       // same date, the counter went strictly backwards
    | Steady       // same date, counter at or above the baseline

  /** Everything one reading produces: the new state, whether it is written to
      the store, and the number displayed. */
  datatype Observation = Observation(next: Baseline, save: bool, steps: nat)

  /** One step-counter reading with the date on which it arrived. */
  datatype Reading = Reading(total: nat, date: string)

  function Min(a: int, b: int): int {
    if a <= b then a else b
  }

  function Classify(b: Baseline, total: nat, today: string): Branch {
    if b.stepsAtReset == UNSET then FirstRun
    else if today != b.lastSavedDate then DayRollover
    else if total < b.stepsAtReset then Reboot
    else Steady
  }

  /** The displayed count: the reading above the baseline, clamped at zero. */
  function StepsToday(total: nat, stepsAtReset: int): nat {
    if total - stepsAtReset < 0 then 0 else total - stepsAtReset
  }

  /** The effect of one reading. Whatever the branch, the baseline ends up set,
      at or below the reading and dated today, so the clamp never fires and the
      count shown is exactly the reading minus the new baseline. The store is
      written exactly when the state changed, which is on every branch but the
      steady one, and every branch that writes shows zero. On the same date the
      baseline follows the lowest reading seen. */
  function Observe(b: Baseline, total: nat, today: string): (o: Observation)
    ensures o.next.lastSavedDate == today
    ensures o.next.stepsAtReset != UNSET && o.next.stepsAtReset <= total
    ensures o.steps == total - o.next.stepsAtReset
    ensures o.save <==> o.next != b
    ensures o.save <==> Classify(b, total, today) != Steady
    ensures o.save ==> o.steps == 0
    ensures b.stepsAtReset != UNSET && today == b.lastSavedDate ==>
      o.next.stepsAtReset == Min(b.stepsAtReset, total)
  {
    var branch := Classify(b, total, today);
    var next :=
      match branch
      case FirstRun => Baseline(total, today)
      case DayRollover => Baseline(total, today)
      case Reboot => b.(stepsAtReset := total)
      case Steady => b;
    Observation(next, branch != Steady, StepsToday(total, next.stepsAtReset))
  }

  // ---------------------------------------------------------------------------
  // The four branches, one by one

  /** No baseline yet: the reading becomes the baseline, dated today, saved, 0 shown. */
  lemma FirstRunSetsBaseline(b: Baseline, total: nat, today: string)
    requires b.stepsAtReset == UNSET
    ensures Observe(b, total, today) == Observation(Baseline(total, today), true, 0)
  {
  }

  /** A new date re-zeroes at the reading, whether it is above or below the old baseline. */
  lemma DayRolloverResets(b: Baseline, total: nat, today: string)
    requires b.stepsAtReset != UNSET && today != b.lastSavedDate
    ensures Observe(b, total, today) == Observation(Baseline(total, today), true, 0)
  {
  }

  /** Same date, counter strictly below the baseline: a reboot. Only the
      baseline moves; the date stays, the pair is saved and 0 is shown. */
  lemma RebootLowersBaseline(b: Baseline, total: nat, today: string)
    requires b.stepsAtReset != UNSET && today == b.lastSavedDate && total < b.stepsAtReset
    ensures Observe(b, total, today) == Observation(Baseline(total, b.lastSavedDate), true, 0)
  {
  }

  /** Same date, counter at or above the baseline (equality included): nothing
      changes, nothing is saved, and the difference is shown. */
  lemma SteadyCountsFromBaseline(b: Baseline, total: nat, today: string)
    requires b.stepsAtReset != UNSET && today == b.lastSavedDate && total >= b.stepsAtReset
    ensures Observe(b, total, today) == Observation(b, false, total - b.stepsAtReset)
  {
  }

  /** Four example readings: a first reading, a steady reading, a reboot and a new day. */
  lemma Scenarios()
    ensures Observe(Baseline(UNSET, ""), 500, "2024-01-01") == Observation(Baseline(500, "2024-01-01"), true, 0)
    ensures Observe(Baseline(500, "2024-01-01"), 620, "2024-01-01") == Observation(Baseline(500, "2024-01-01"), false, 120)
    ensures Observe(Baseline(500, "2024-01-01"), 10, "2024-01-01") == Observation(Baseline(10, "2024-01-01"), true, 0)
    ensures Observe(Baseline(500, "2024-01-01"), 50, "2024-01-02") == Observation(Baseline(50, "2024-01-02"), true, 0)
  {
  }

  // ---------------------------------------------------------------------------
  // Sequences of readings

  /** The state after a sequence of readings, processed in arrival order. */
  function Run(b: Baseline, rs: seq<Reading>): Baseline
    decreases |rs|
  {
    if rs == [] then b else Run(Observe(b, rs[0].total, rs[0].date).next, rs[1..])
  }

  /** The lowest of `m` and every reading in `rs`. */
  function LowestFrom(m: int, rs: seq<Reading>): int
    decreases |rs|
  {
    if rs == [] then m else LowestFrom(Min(m, rs[0].total), rs[1..])
  }

  predicate AllOn(rs: seq<Reading>, d: string) {
    forall i :: 0 <= i < |rs| ==> rs[i].date == d
  }

  /** Processing one more reading extends a run by one step. */
  lemma {:induction false} RunAppend(b: Baseline, rs: seq<Reading>, r: Reading)
    ensures Run(b, rs + [r]) == Observe(Run(b, rs), r.total, r.date).next
    decreases |rs|
  {
    if rs != [] {
      assert (rs + [r])[1..] == rs[1..] + [r];
      RunAppend(Observe(b, rs[0].total, rs[0].date).next, rs[1..], r);
    }
  }

  /** Within one date, once a baseline is set, it only ever follows the lowest
      counter value: reboot detection keeps a running minimum and the date never moves. */
  lemma {:induction false} SameDayBaselineIsRunningMin(b: Baseline, rs: seq<Reading>)
    requires b.stepsAtReset != UNSET && AllOn(rs, b.lastSavedDate)
    ensures Run(b, rs) == Baseline(LowestFrom(b.stepsAtReset, rs), b.lastSavedDate)
    decreases |rs|
  {
    if rs != [] {
      var next := Observe(b, rs[0].total, rs[0].date).next;
      assert next == Baseline(Min(b.stepsAtReset, rs[0].total), b.lastSavedDate);
      assert AllOn(rs[1..], b.lastSavedDate) by {
        forall i | 0 <= i < |rs[1..]| ensures rs[1..][i].date == b.lastSavedDate {
          assert rs[1..][i] == rs[i + 1];
        }
      }
      SameDayBaselineIsRunningMin(next, rs[1..]);
    }
  }

  /** The readings of a new day (or the very first readings) leave as baseline
      the lowest counter value seen that day, dated that day. */
  lemma NewDayBaselineIsLowestReading(b: Baseline, rs: seq<Reading>, d: string)
    requires |rs| > 0 && AllOn(rs, d)
    requires b.stepsAtReset == UNSET || b.lastSavedDate != d
    ensures Run(b, rs) == Baseline(LowestFrom(rs[0].total, rs[1..]), d)
  {
    var next := Observe(b, rs[0].total, d).next;
    assert next == Baseline(rs[0].total, d);
    assert AllOn(rs[1..], d) by {
      forall i | 0 <= i < |rs[1..]| ensures rs[1..][i].date == d {
        assert rs[1..][i] == rs[i + 1];
      }
    }
    SameDayBaselineIsRunningMin(next, rs[1..]);
  }

  /** On a day whose readings start from an unset or older baseline, the count
      shown for the latest reading is that reading minus the lowest counter
      value of the day. */
  lemma StepsTodayFromLowestReading(b: Baseline, rs: seq<Reading>, d: string)
    requires |rs| > 0 && AllOn(rs, d)
    requires b.stepsAtReset == UNSET || b.lastSavedDate != d
    ensures var last := rs[|rs| - 1];
      Observe(Run(b, rs[..|rs| - 1]), last.total, d).steps == last.total - LowestFrom(rs[0].total, rs[1..])
  {
    var last := rs[|rs| - 1];
    assert rs[..|rs| - 1] + [last] == rs;
    RunAppend(b, rs[..|rs| - 1], last);
    NewDayBaselineIsLowestReading(b, rs, d);
  }

  /** When the counter only grows, the lowest value is where it started. */
  lemma {:induction false} LowestOfNondecreasing(m: int, rs: seq<Reading>)
    requires forall i :: 0 <= i < |rs| ==> m <= rs[i].total
    requires forall i, j :: 0 <= i < j < |rs| ==> rs[i].total <= rs[j].total
    ensures LowestFrom(m, rs) == m
    decreases |rs|
  {
    if rs != [] {
      assert Min(m, rs[0].total) == m;
      LowestOfNondecreasing(m, rs[1..]);
    }
  }

  /** Without a reboot (the counter never goes back) the count shown at any
      reading of a new day is that reading minus the day's first reading. */
  lemma NoRebootCountsFromFirstReading(b: Baseline, rs: seq<Reading>, d: string)
    requires |rs| > 0 && AllOn(rs, d)
    requires b.stepsAtReset == UNSET || b.lastSavedDate != d
    requires forall i, j :: 0 <= i < j < |rs| ==> rs[i].total <= rs[j].total
    ensures Observe(Run(b, rs[..|rs| - 1]), rs[|rs| - 1].total, d).steps == rs[|rs| - 1].total - rs[0].total
  {
    StepsTodayFromLowestReading(b, rs, d);
    LowestOfNondecreasing(rs[0].total, rs[1..]);
  }
}
