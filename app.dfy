/** The page's state and the event handlers that change it (app.js). The
    module-level `state` object becomes a `Tracker`; the `localStorage` item
    it is saved under becomes a `Storage` slot. */
module App {
  import opened Activity

  /** The storage item `stepTrackState`: nothing, or one snapshot of the
      whole state. */
  class Storage {
    var slot: Option<State>

    constructor (initial: Option<State>)
      ensures slot == initial
    {
      slot := initial;
    }

    /** A stored snapshot satisfies the state invariant. Every snapshot the
        tracker writes does. */
    predicate Valid()
      reads this
    {
      slot.Some? ==> ValidState(slot.value)
    }
  }

  class Tracker {
    var steps: int
    var calories: int
    var dailyGoal: int
    var history: seq<ActivityRecord>

    /** The four fields as one value. */
    function Current(): (s: State)
      reads this
    {
      State(steps, calories, dailyGoal, history)
    }

    predicate Valid()
      reads this
    {
      ValidState(Current())
    }

    /** The initial `state`: zero counters, the default goal, no history. */
    constructor ()
      ensures Current() == DefaultState()
      ensures Valid()
    {
      steps, calories, dailyGoal, history := 0, 0, DefaultGoal, [];
    }

    /** `saveState`: the slot is overwritten with the whole current state. */
    method Save(store: Storage)
      modifies store
      ensures store.slot == Some(Current())
      ensures Valid() ==> store.Valid()
    {
      store.slot := Some(Current());
    }

    /** `loadState`: a stored snapshot replaces the whole state, as it is
        (nothing is validated); with nothing stored the state is kept. */
    method Load(store: Storage)
      modifies this
      ensures store.slot.None? ==> Current() == old(Current())
      ensures store.slot.Some? ==> Current() == store.slot.value
      ensures old(Valid()) && store.Valid() ==> Valid()
    {
      match store.slot
      case None =>
      case Some(s) =>
        steps, calories, dailyGoal, history := s.steps, s.calories, s.dailyGoal, s.history;
    }

    /** The add-steps handler, given the random count it draws (500 to 2000):
        the count is added to the steps, its calorie estimate to the
        calories, and the state is saved. */
    method AddSteps(added: int, store: Storage)
      requires 500 <= added <= 2000
      modifies this, store
      ensures steps == old(steps) + added
      ensures calories == old(calories) + StepCalories(added)
      ensures dailyGoal == old(dailyGoal) && history == old(history)
      ensures store.slot == Some(Current())
      ensures old(Valid()) ==> Valid()
      ensures TotalSteps(history) + steps == old(TotalSteps(history) + steps) + added
    {
      steps := steps + added;
      calories := calories + StepCalories(added);
      Save(store);
    }

    /** The set-goal handler, given the parsed input (`None` for NaN): a
        positive goal is assigned and saved; anything else leaves state and
        storage as they were. */
    method SetGoal(goal: Option<int>, store: Storage) returns (accepted: bool)
      modifies this, store
      ensures accepted <==> goal.Some? && goal.value > 0
      ensures accepted ==> Current() == old(Current()).(dailyGoal := goal.value)
      ensures accepted ==> store.slot == Some(Current())
      ensures !accepted ==> Current() == old(Current()) && store.slot == old(store.slot)
      ensures old(Valid()) ==> Valid()
    {
      accepted := goal.Some? && goal.value > 0;
      if accepted {
        dailyGoal := goal.value;
        Save(store);
      }
    }

    /** `displayExerciseResults`: the rounded calorie figure for the matched
        exercise is added to the calories and the state is saved. */
    method RecordExercise(exercise: Exercise, minutes: int, store: Storage)
      requires exercise.duration > 0 && exercise.calories >= 0 && minutes > 0
      modifies this, store
      ensures Current() == old(Current()).(calories := old(calories) + ExerciseCalories(exercise, minutes))
      ensures store.slot == Some(Current())
      ensures old(Valid()) ==> Valid()
    {
      calories := calories + ExerciseCalories(exercise, minutes);
      Save(store);
    }

    /** The calculate-exercise handler, given the typed name, the parsed
        duration (`None` for NaN) and the catalog it fetches: an invalid input
        or an unknown name changes nothing; a match adds its calories. */
    method CalculateExercise(rawName: string, duration: Option<int>, catalog: seq<Exercise>, store: Storage)
      returns (outcome: ExerciseOutcome)
      requires ValidCatalog(catalog)
      modifies this, store
      ensures outcome == EvaluateExercise(catalog, rawName, duration)
      ensures !outcome.Burned? ==> Current() == old(Current()) && store.slot == old(store.slot)
      ensures outcome.Burned? ==> Current() == old(Current()).(calories := old(calories) + outcome.added)
      ensures outcome.Burned? ==> store.slot == Some(Current())
      ensures old(Valid()) ==> Valid()
    {
      outcome := EvaluateExercise(catalog, rawName, duration);
      if outcome.Burned? {
        RecordExercise(outcome.exercise, outcome.minutes, store);
      }
    }

    /** The first half of the reset handler, up to its `await`: the record of
        the day is built from the current counters. Nothing changes. */
    method BeginReset(date: string) returns (pending: ActivityRecord)
      ensures pending.date == date && pending.steps == steps && pending.calories == calories
    {
      pending := ActivityRecord(date, steps, calories);
    }

    /** The second half of the reset handler, after the remote save has been
        awaited: the record built before the `await` is pushed, both counters
        are zeroed, and the state is saved. */
    method CompleteReset(pending: ActivityRecord, store: Storage)
      modifies this, store
      ensures history == old(history) + [pending]
      ensures steps == 0 && calories == 0 && dailyGoal == old(dailyGoal)
      ensures store.slot == Some(Current())
      ensures old(Valid()) && ValidRecord(pending) ==> Valid()
      ensures TotalSteps(history) + steps == old(TotalSteps(history)) + pending.steps
    {
      TotalStepsAppend(history, pending);
      history := history + [pending];
      steps, calories := 0, 0;
      Save(store);
    }

    /** Reset with the local update made in one step: one record holding the
        counters as they were and the given date is appended, earlier records
        are kept, the counters are zeroed, the goal is kept, and no step is
        lost. The returned record is the one sent to the remote history. */
    method Reset(date: string, store: Storage) returns (posted: ActivityRecord)
      modifies this, store
      ensures posted == ActivityRecord(date, old(steps), old(calories))
      ensures history == old(history) + [posted]
      ensures steps == 0 && calories == 0 && dailyGoal == old(dailyGoal)
      ensures store.slot == Some(Current())
      ensures old(Valid()) ==> Valid()
      ensures TotalSteps(history) + steps == old(TotalSteps(history) + steps)
    {
      posted := BeginReset(date);
      CompleteReset(posted, store);
    }
  }

  /** Page start: the default state, replaced by the stored snapshot when
      there is one. */
  method Startup(store: Storage) returns (t: Tracker)
    ensures fresh(t)
    ensures store.slot.None? ==> t.Current() == DefaultState()
    ensures store.slot.Some? ==> t.Current() == store.slot.value
    ensures store.Valid() ==> t.Valid()
  {
    t := new Tracker();
    t.Load(store);
  }
}
