/** The reset handler builds its record, then awaits the remote save, and
    only then pushes the record and zeroes the counters. A click on "add
    steps" while the remote save is pending therefore lands in counters that
    are zeroed afterwards without being recorded. The two scenarios below
    play the same clicks against the handler as written and against the
    one-step local reset. */
module ResetRace {
  import opened Activity
  import opened App

  /** As written: add `before` steps, click reset, add `during` steps while
      the remote save is pending, and the save completes. The history holds
      only `before`; the counters are zero; `during` is gone. */
  method AwaitedResetLosesSteps(date: string, before: int, during: int, store: Storage) returns (t: Tracker)
    requires 500 <= before <= 2000 && 500 <= during <= 2000
    modifies store
    ensures t.history == [ActivityRecord(date, before, StepCalories(before))]
    ensures t.steps == 0 && t.calories == 0
    ensures TotalSteps(t.history) + t.steps == before
    ensures TotalSteps(t.history) + t.steps < before + during
  {
    t := new Tracker();
    t.AddSteps(before, store);
    var pending := t.BeginReset(date);
    t.AddSteps(during, store);
    t.CompleteReset(pending, store);
  }

  /** The same clicks when the local reset is done before the remote save is
      awaited: the `during` steps count towards the new day. */
  method LocalFirstResetKeepsSteps(date: string, before: int, during: int, store: Storage) returns (t: Tracker)
    requires 500 <= before <= 2000 && 500 <= during <= 2000
    modifies store
    ensures t.history == [ActivityRecord(date, before, StepCalories(before))]
    ensures t.steps == during && t.calories == StepCalories(during)
    ensures TotalSteps(t.history) + t.steps == before + during
  {
    t := new Tracker();
    t.AddSteps(before, store);
    var posted := t.Reset(date, store);
    t.AddSteps(during, store);
  }

  /** As written: add `before` steps, then click reset twice before the first
      remote save returns. Both clicks build their record from the same
      counters, so the day is recorded twice. */
  method AwaitedResetTwiceRecordsDayTwice(date: string, before: int, store: Storage) returns (t: Tracker)
    requires 500 <= before <= 2000
    modifies store
    ensures t.history == [ActivityRecord(date, before, StepCalories(before)),
                          ActivityRecord(date, before, StepCalories(before))]
    ensures TotalSteps(t.history) + t.steps == 2 * before
  {
    t := new Tracker();
    t.AddSteps(before, store);
    var first := t.BeginReset(date);
    var second := t.BeginReset(date);
    t.CompleteReset(first, store);
    t.CompleteReset(second, store);
  }

  /** The same two clicks against the one-step local reset: the second click
      records an empty day, and the steps are counted once. */
  method LocalFirstResetTwiceRecordsDayOnce(date: string, before: int, store: Storage) returns (t: Tracker)
    requires 500 <= before <= 2000
    modifies store
    ensures t.history == [ActivityRecord(date, before, StepCalories(before)), ActivityRecord(date, 0, 0)]
    ensures TotalSteps(t.history) + t.steps == before
  {
    t := new Tracker();
    t.AddSteps(before, store);
    var first := t.Reset(date, store);
    var second := t.Reset(date, store);
  }
}
