/** The values the activity tracker works on and the pure computations of
    app.js: the rounding the handlers apply, the goal-progress percentage,
    the seven-day chart window and the exercise lookup. */
module Activity {
  import Text

  datatype Option<T> = None | Some(value: T)

  /** One completed day, as pushed onto the history by the reset handler. */
  datatype ActivityRecord = ActivityRecord(date: string, steps: int, calories: int)

  /** One entry of the exercise catalog: `calories` burned per `duration`
      minutes. */
  datatype Exercise = Exercise(name: string, calories: int, duration: int)

  /** The whole application state, as kept in memory and as serialised into
      the storage slot. */
  datatype State = State(steps: int, calories: int, dailyGoal: int, history: seq<ActivityRecord>)

  /** The state the page starts from before anything is loaded. */
  const DefaultGoal := 10000

  function DefaultState(): (s: State)
    ensures ValidState(s) && s.history == []
  {
    State(0, 0, DefaultGoal, [])
  }

  predicate ValidRecord(r: ActivityRecord) {
    r.steps >= 0 && r.calories >= 0
  }

  /** Counters never negative, a positive goal, and every recorded day made
      of non-negative counters. */
  predicate ValidState(s: State) {
    s.steps >= 0 && s.calories >= 0 && s.dailyGoal > 0
    && forall i :: 0 <= i < |s.history| ==> ValidRecord(s.history[i])
  }

  function Min(a: int, b: int): (m: int) {
    if a <= b then a else b
  }

  // ---------------------------------------------------------------------
  // Rounding
  // ---------------------------------------------------------------------

  /** `Math.round(num / den)` for a positive denominator, computed exactly:
      the integer nearest to the quotient, halves rounded up. */
  function RoundDiv(num: int, den: int): (r: int)
    requires den > 0
    ensures den * (2 * r - 1) <= 2 * num < den * (2 * r + 1)
  {
    var q := (2 * num + den) / (2 * den);
    var m := (2 * num + den) % (2 * den);
    assert 2 * num + den == 2 * den * q + m;
    assert den * (2 * q - 1) == 2 * den * q - den;
    assert den * (2 * q + 1) == 2 * den * q + den;
    q
  }

  lemma MulMonotone(d: int, x: int, y: int)
    requires d >= 0 && x <= y
    ensures d * x <= d * y
  {
    assert d * y - d * x == d * (y - x);
  }

  /** The bracket in `RoundDiv`'s contract determines its result: no other
      integer lies within half a unit of the quotient in that way. */
  lemma RoundDivUnique(num: int, den: int, r: int)
    requires den > 0
    requires den * (2 * r - 1) <= 2 * num < den * (2 * r + 1)
    ensures r == RoundDiv(num, den)
  {
    var q := RoundDiv(num, den);
    if r < q {
      MulMonotone(den, 2 * r + 1, 2 * q - 1);
      assert false;
    } else if r > q {
      MulMonotone(den, 2 * q + 1, 2 * r - 1);
      assert false;
    }
  }

  /** A larger numerator never rounds to less. */
  lemma RoundDivMonotone(a: int, b: int, den: int)
    requires den > 0 && a <= b
    ensures RoundDiv(a, den) <= RoundDiv(b, den)
  {
    var ra, rb := RoundDiv(a, den), RoundDiv(b, den);
    if rb < ra {
      MulMonotone(den, 2 * rb + 1, 2 * ra - 1);
      assert false;
    }
  }

  /** A quotient of at least `k` rounds to at least `k`. */
  lemma RoundDivAtLeast(num: int, den: int, k: int)
    requires den > 0
    ensures num >= k * den ==> RoundDiv(num, den) >= k
  {
    if num >= k * den {
      RoundDivMonotone(k * den, num, den);
      RoundDivUnique(k * den, den, k);
    }
  }

  /** A quotient that rounds to at least `k` is at least `k` less a half. */
  lemma RoundDivReaches(num: int, den: int, k: int)
    requires den > 0
    ensures RoundDiv(num, den) >= k ==> 2 * num >= den * (2 * k - 1)
  {
    var q := RoundDiv(num, den);
    if q >= k {
      MulMonotone(den, 2 * k - 1, 2 * q - 1);
    }
  }

  // ---------------------------------------------------------------------
  // Add steps
  // ---------------------------------------------------------------------

  /** `Math.round(addedSteps * 0.04)`: the step-derived calorie estimate,
      the integer nearest to `addedSteps / 25`. For a step count the add-steps
      button can produce (500 to 2000) it lies between 20 and 80. */
  function StepCalories(addedSteps: int): (c: int)
    ensures 25 * (2 * c - 1) <= 2 * addedSteps < 25 * (2 * c + 1)
    ensures addedSteps >= 0 ==> c >= 0
    ensures 500 <= addedSteps <= 2000 ==> 20 <= c <= 80
  {
    RoundDiv(addedSteps, 25)
  }

  // ---------------------------------------------------------------------
  // Goal progress
  // ---------------------------------------------------------------------

  /** `Math.min(Math.round(steps / dailyGoal * 100), 100)`: the rounded
      percentage of the goal reached, capped at 100. */
  function GoalPercentage(steps: int, dailyGoal: int): (p: int)
    requires dailyGoal > 0
    ensures p <= 100
    ensures steps >= dailyGoal ==> p == 100
    ensures steps >= 0 ==> p >= 0
    ensures p < 100 ==> dailyGoal * (2 * p - 1) <= 200 * steps < dailyGoal * (2 * p + 1)
    ensures p == 100 ==> 200 * steps >= 199 * dailyGoal
  {
    RoundDivAtLeast(100 * steps, dailyGoal, 100);
    RoundDivAtLeast(100 * steps, dailyGoal, 0);
    RoundDivReaches(100 * steps, dailyGoal, 100);
    Min(RoundDiv(100 * steps, dailyGoal), 100)
  }

  /** More steps towards the same goal never show less progress. */
  lemma GoalPercentageMonotone(s1: int, s2: int, dailyGoal: int)
    requires dailyGoal > 0 && s1 <= s2
    ensures GoalPercentage(s1, dailyGoal) <= GoalPercentage(s2, dailyGoal)
  {
    RoundDivMonotone(100 * s1, 100 * s2, dailyGoal);
  }

  // ---------------------------------------------------------------------
  // Chart window
  // ---------------------------------------------------------------------

  /** The number of history entries the chart shows. */
  const ChartDays := 7

  /** `history.slice(-7)`: the last `min(7, |history|)` entries, in their
      original order. */
  function ChartWindow(history: seq<ActivityRecord>): (w: seq<ActivityRecord>)
    ensures |w| == Min(ChartDays, |history|)
    ensures forall i :: 0 <= i < |w| ==> w[i] == history[|history| - |w| + i]
  {
    // slice with a negative start begins at max(length + start, 0)
    var start := if |history| - ChartDays < 0 then 0 else |history| - ChartDays;
    history[start..]
  }

  /** Recording one more day moves the window on by one: the new record is
      its last entry, and the oldest entry drops out once the window is full. */
  lemma {:induction false} ChartWindowAfterAppend(history: seq<ActivityRecord>, r: ActivityRecord)
    ensures ChartWindow(history + [r]) ==
            (if |history| < ChartDays then ChartWindow(history) else ChartWindow(history)[1..]) + [r]
  {
    var h := history + [r];
    var w, w' := ChartWindow(history), ChartWindow(h);
    var expected := (if |history| < ChartDays then w else w[1..]) + [r];
    assert |w'| == |expected|;
    forall i | 0 <= i < |w'|
      ensures w'[i] == expected[i]
    {
      if i < |w'| - 1 {
        assert w'[i] == h[|h| - |w'| + i] == history[|h| - |w'| + i];
      }
    }
  }

  /** The two series handed to the chart: one date label and one step
      count per day of the window. */
  datatype ChartData = ChartData(labels: seq<string>, data: seq<int>)

  function ChartSeries(history: seq<ActivityRecord>): (c: ChartData)
    ensures |c.labels| == |c.data| == Min(ChartDays, |history|)
    ensures forall i :: 0 <= i < |c.labels| ==>
              var day := history[|history| - |c.labels| + i];
              c.labels[i] == day.date && c.data[i] == day.steps
  {
    var w := ChartWindow(history);
    ChartData(seq(|w|, i requires 0 <= i < |w| => w[i].date),
              seq(|w|, i requires 0 <= i < |w| => w[i].steps))
  }

  // ---------------------------------------------------------------------
  // Exercise lookup
  // ---------------------------------------------------------------------

  /** The catalog values the exercise formula can use: a positive duration
      and a non-negative calorie figure. */
  predicate ValidCatalog(catalog: seq<Exercise>) {
    forall i :: 0 <= i < |catalog| ==> catalog[i].duration > 0 && catalog[i].calories >= 0
  }

  predicate NameMatches(e: Exercise, key: string) {
    Text.Lower(e.name) == key
  }

  /** `exercises.find(e => e.name.toLowerCase() === key)`, as the position
      of the first entry whose lower-cased name is `key`. */
  function FindExercise(catalog: seq<Exercise>, key: string): (r: Option<nat>)
    ensures r.Some? ==> r.value < |catalog| && NameMatches(catalog[r.value], key)
    ensures r.Some? ==> forall j :: 0 <= j < r.value ==> !NameMatches(catalog[j], key)
    ensures r.None? <==> forall j :: 0 <= j < |catalog| ==> !NameMatches(catalog[j], key)
  {
    if catalog == [] then None
    else if NameMatches(catalog[0], key) then Some(0)
    else match FindExercise(catalog[1..], key)
      case None => None
      case Some(i) => Some(i + 1)
  }

  /** `Math.round(exercise.calories / exercise.duration * minutes)`: the
      catalog's rate applied to the given minutes, to the nearest integer. */
  function ExerciseCalories(e: Exercise, minutes: int): (c: int)
    requires e.duration > 0
    ensures e.duration * (2 * c - 1) <= 2 * e.calories * minutes < e.duration * (2 * c + 1)
    ensures e.calories >= 0 && minutes >= 0 ==> c >= 0
  {
    RoundDivAtLeast(e.calories * minutes, e.duration, 0);
    RoundDiv(e.calories * minutes, e.duration)
  }

  /** What the calculate-exercise handler concludes from its inputs. */
  datatype ExerciseOutcome =
    | Rejected                                          // empty name or bad duration
    | NotFound                                          // no catalog entry of that name
    | Burned(exercise: Exercise, minutes: int, added: int)  // calories to add

  /** The exercise handler's decision: an empty trimmed name or a duration
      that is missing or not positive is rejected before any lookup; else the
      lower-cased trimmed name is looked up, and the first match yields the
      rounded calorie figure. */
  function EvaluateExercise(catalog: seq<Exercise>, rawName: string, duration: Option<int>): (o: ExerciseOutcome)
    requires ValidCatalog(catalog)
    ensures o.Rejected? <==> Text.AllWhitespace(rawName) || duration.None? || duration.value <= 0
    ensures o.NotFound? <==>
              (!o.Rejected? && forall j :: 0 <= j < |catalog| ==> !NameMatches(catalog[j], Text.Lower(Text.Trim(rawName))))
    ensures o.Burned? ==>
              && duration.Some? && o.minutes == duration.value > 0
              && (exists i :: 0 <= i < |catalog| && catalog[i] == o.exercise
                   && FindExercise(catalog, Text.Lower(Text.Trim(rawName))) == Some(i))
              && o.exercise.duration * (2 * o.added - 1) <= 2 * o.exercise.calories * o.minutes
              && 2 * o.exercise.calories * o.minutes < o.exercise.duration * (2 * o.added + 1)
              && o.added >= 0
  {
    var trimmed := Text.Trim(rawName);
    var name := Text.Lower(trimmed);
    assert |name| == |trimmed|;
    if name == [] || duration.None? || duration.value <= 0 then Rejected
    else match FindExercise(catalog, name)
      case None => NotFound
      case Some(i) =>
        var e := catalog[i];
        assert e.duration > 0 && e.calories >= 0;
        Burned(e, duration.value, ExerciseCalories(e, duration.value))
  }

  /** The outcome does not depend on the case in which the name is typed. */
  lemma EvaluateExerciseIgnoresCase(catalog: seq<Exercise>, a: string, b: string, duration: Option<int>)
    requires ValidCatalog(catalog)
    requires Text.EqualIgnoringCase(a, b)
    ensures EvaluateExercise(catalog, a, duration) == EvaluateExercise(catalog, b, duration)
  {
    Text.NormalizeIgnoresCase(a, b);
  }

  /** Nor on the case in which the catalog spells the names. */
  lemma FindExerciseIgnoresCatalogCase(catalog: seq<Exercise>, other: seq<Exercise>, key: string)
    requires |catalog| == |other|
    requires forall i :: 0 <= i < |catalog| ==> Text.EqualIgnoringCase(catalog[i].name, other[i].name)
    ensures FindExercise(catalog, key) == FindExercise(other, key)
  {
    forall i | 0 <= i < |catalog|
      ensures NameMatches(catalog[i], key) == NameMatches(other[i], key)
    {
      Text.LowerEqualIff(catalog[i].name, other[i].name);
    }
    match FindExercise(catalog, key)
    case None =>
    case Some(i) =>
      assert NameMatches(other[i], key);
  }

  // ---------------------------------------------------------------------
  // Totals over the history
  // ---------------------------------------------------------------------

  /** All steps recorded in `history`. */
  function TotalSteps(history: seq<ActivityRecord>): (total: int) {
    if history == [] then 0 else history[0].steps + TotalSteps(history[1..])
  }

  lemma {:induction false} TotalStepsAppend(history: seq<ActivityRecord>, r: ActivityRecord)
    ensures TotalSteps(history + [r]) == TotalSteps(history) + r.steps
  {
    if history == [] {
      assert [] + [r] == [r];
    } else {
      assert (history + [r])[1..] == history[1..] + [r];
      TotalStepsAppend(history[1..], r);
    }
  }
}
