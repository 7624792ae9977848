/**
  `format_training_data` of upload_training.py:31-59 and the success test of
  `upload_trainings` (upload_training.py:64). The formatter maps each workout
  of the input document to one event of the bulk-upload body. A missing key or
  an unreadable duration raises, which aborts the whole call: the model
  returns the error of the first such failure, in the order the Python code
  evaluates its lookups.
 */
module Formatter {
  import opened Outcomes
  import opened Text
  import opened Schema
  import opened Duration

  // ---------------------------------------------------------------------
  // Sport classification (upload_training.py:43)
  // ---------------------------------------------------------------------

  /** "Ride" if the name mentions "Bike", else "Run" if it mentions "Run", else "Swim". */
  function Classify(name: string): (sport: Sport)
    ensures sport == Ride <==> Contains(name, "Bike")
    ensures sport == Run <==> !Contains(name, "Bike") && Contains(name, "Run")
    ensures sport == Swim <==> !Contains(name, "Bike") && !Contains(name, "Run")
  {
    if Contains(name, "Bike") then Ride
    else if Contains(name, "Run") then Run
    else Swim
  }

  // ---------------------------------------------------------------------
  // Description (upload_training.py:34-37, 42)
  // ---------------------------------------------------------------------

  /** The second line written for a step: `- <duration> in <zone> <ZONE_TYPE>`. */
  function TargetLine(duration: string, zone: string, zoneType: ZoneType): string
  {
    "- " + duration + " in " + zone + " " + zoneType.Name()
  }

  /** The keys the description loop reads from a step. */
  predicate HasLineKeys(step: Step) {
    step.description.Some? && step.duration.Some? && step.zone.Some?
  }

  /** The two description lines of one step; the keys are read in source order. */
  function StepLines(step: Step, zoneType: ZoneType): Result<seq<string>, FormatError>
  {
    var description :- Required(step.description, "description");
    var duration :- Required(step.duration, "duration");
    var zone :- Required(step.zone, "zone");
    Ok([description, TargetLine(duration, zone, zoneType)])
  }

  /** The `description_lines` list built by the loop over the steps. */
  function DescriptionLines(steps: seq<Step>, zoneType: ZoneType): (r: Result<seq<string>, FormatError>)
    ensures r.Ok? <==> forall k :: 0 <= k < |steps| ==> HasLineKeys(steps[k])
    ensures r.Ok? ==> |r.value| == 2 * |steps|
    ensures r.Ok? ==> forall k :: 0 <= k < |steps| ==>
              && r.value[2 * k] == steps[k].description.value
              && r.value[2 * k + 1] == TargetLine(steps[k].duration.value, steps[k].zone.value, zoneType)
    decreases |steps|
  {
    if |steps| == 0 then
      Ok([])
    else
      var first :- StepLines(steps[0], zoneType);
      var rest :- DescriptionLines(steps[1..], zoneType);
      Ok(first + rest)
  }

  /**
    The event description: the lines joined by single newlines, then
    stripped. No lines give the empty description; lines that start and end
    with visible characters come through unchanged.
   */
  function Description(lines: seq<string>): (r: string)
    ensures lines == [] ==> r == ""
    ensures |lines| > 0 && StartsVisibly(lines[0]) && EndsVisibly(lines[|lines| - 1]) ==> r == Join(lines, "\n")
  {
    var joined := Join(lines, "\n");
    assert |lines| > 0 && StartsVisibly(lines[0]) && EndsVisibly(lines[|lines| - 1]) ==> Strip(joined) == joined by {
      if |lines| > 0 && StartsVisibly(lines[0]) && EndsVisibly(lines[|lines| - 1]) {
        StripJoinVisible(lines, "\n");
      }
    }
    Strip(joined)
  }

  // ---------------------------------------------------------------------
  // Moving time (upload_training.py:44-47)
  // ---------------------------------------------------------------------

  /** The seconds of one step: `step["duration"]` read as a duration token. */
  function StepSeconds(step: Step): Result<nat, FormatError>
  {
    var duration :- Required(step.duration, "duration");
    ParseDuration(duration)
  }

  /** The duration of every step parses. */
  predicate DurationsParse(steps: seq<Step>) {
    forall k :: 0 <= k < |steps| ==> StepSeconds(steps[k]).Ok?
  }

  /** The `sum(...)` of the steps' seconds; the first failing step raises. */
  function MovingTime(steps: seq<Step>): (r: Result<nat, FormatError>)
    ensures r.Ok? <==> DurationsParse(steps)
    decreases |steps|
  {
    if |steps| == 0 then
      Ok(0)
    else
      DurationsParseCons(steps);
      var seconds :- StepSeconds(steps[0]);
      var rest :- MovingTime(steps[1..]);
      Ok(seconds + rest)
  }

  /** The durations of a non-empty list parse when the first one and those of the tail do. */
  lemma DurationsParseCons(steps: seq<Step>)
    requires |steps| > 0
    ensures DurationsParse(steps) <==> StepSeconds(steps[0]).Ok? && DurationsParse(steps[1..])
  {
    TailIndex(steps);
    if StepSeconds(steps[0]).Ok? && DurationsParse(steps[1..]) {
      forall k | 0 <= k < |steps|
        ensures StepSeconds(steps[k]).Ok?
      {
        if k > 0 {
          assert StepSeconds(steps[1..][k - 1]).Ok?;
        }
      }
    }
  }

  /** Element `k` of a sequence is element `k - 1` of its tail. */
  lemma TailIndex<T>(s: seq<T>)
    requires |s| > 0
    ensures forall k :: 1 <= k < |s| ==> s[k] == s[1..][k - 1]
  {
  }

  // ---------------------------------------------------------------------
  // Step targets (upload_training.py:48-57)
  // ---------------------------------------------------------------------

  /** One entry of the event's `steps` list; description and cadence have defaults. */
  function StepTargetOf(step: Step): Result<StepTarget, FormatError>
  {
    var duration :- Required(step.duration, "duration");
    var zone :- Required(step.zone, "zone");
    Ok(StepTarget(step.description.GetOr(""), duration, "zone", zone, step.cadence.GetOr("Free")))
  }

  /** The event's `steps` list: one target per step, in order. */
  function StepTargets(steps: seq<Step>): (r: Result<seq<StepTarget>, FormatError>)
    ensures r.Ok? <==> forall k :: 0 <= k < |steps| ==> steps[k].duration.Some? && steps[k].zone.Some?
    ensures r.Ok? ==> |r.value| == |steps|
    ensures r.Ok? ==> forall k :: 0 <= k < |steps| ==>
              && r.value[k].targetType == "zone"
              && r.value[k].targetValue == steps[k].zone.value
              && r.value[k].duration == steps[k].duration.value
              && r.value[k].description == steps[k].description.GetOr("")
              && r.value[k].cadence == steps[k].cadence.GetOr("Free")
    decreases |steps|
  {
    if |steps| == 0 then
      Ok([])
    else
      var first :- StepTargetOf(steps[0]);
      var rest :- StepTargets(steps[1..]);
      Ok([first] + rest)
  }

  // ---------------------------------------------------------------------
  // One event, and the whole document
  // ---------------------------------------------------------------------

  /** Everything `format_training_data` needs from a workout to succeed. */
  predicate Formattable(w: Workout) {
    && w.name.Some?
    && w.date.Some?
    && w.steps.Some?
    && (forall k :: 0 <= k < |w.steps.value| ==> HasLineKeys(w.steps.value[k]))
    && DurationsParse(w.steps.value)
  }

  /**
    The event for one workout. The description loop reads the steps with a
    default of no steps, but `moving_time` indexes `steps` directly, so a
    missing `steps` key still fails, after `date` and `name` are read.
   */
  function FormatWorkout(w: Workout, zoneType: ZoneType): (r: Result<Event, FormatError>)
    ensures r.Ok? <==> Formattable(w)
    ensures r.Ok? ==>
              && r.value.startDateLocal == w.date.value + "T00:00:00"
              && r.value.category == "WORKOUT"
              && r.value.name == w.name.value
              && r.value.sport == Classify(w.name.value)
              && |r.value.steps| == |w.steps.value|
  {
    var lines :- DescriptionLines(w.steps.GetOr([]), zoneType);
    var date :- Required(w.date, "date");
    var name :- Required(w.name, "name");
    var steps :- Required(w.steps, "steps");
    var movingTime :- MovingTime(steps);
    var targets :- StepTargets(steps);
    Ok(Event(date + "T00:00:00", "WORKOUT", name, Description(lines), Classify(name), movingTime, targets))
  }

  /** The events of a list of workouts; the first failing workout aborts the list. */
  function FormatAll(workouts: seq<Workout>, zoneType: ZoneType): (r: Result<seq<Event>, FormatError>)
    ensures r.Ok? <==> forall k :: 0 <= k < |workouts| ==> FormatWorkout(workouts[k], zoneType).Ok?
    ensures r.Ok? ==> |r.value| == |workouts|
    ensures r.Ok? ==> forall k :: 0 <= k < |workouts| ==> FormatWorkout(workouts[k], zoneType) == Ok(r.value[k])
    decreases |workouts|
  {
    if |workouts| == 0 then
      Ok([])
    else
      var first :- FormatWorkout(workouts[0], zoneType);
      TailIndex(workouts);
      var rest :- FormatAll(workouts[1..], zoneType);
      Ok([first] + rest)
  }

  /**
    When some workout cannot be formatted, the list fails with the error of
    the first workout that fails.
   */
  lemma {:induction false} FormatAllReportsFirstFailure(workouts: seq<Workout>, zoneType: ZoneType)
    requires exists k :: 0 <= k < |workouts| && !Formattable(workouts[k])
    ensures FormatAll(workouts, zoneType).Err?
    ensures exists k :: FirstFailure(workouts, zoneType, k)
                        && FormatWorkout(workouts[k], zoneType) == Err(FormatAll(workouts, zoneType).error)
    decreases |workouts|
  {
    var bad :| 0 <= bad < |workouts| && !Formattable(workouts[bad]);
    assert FormatWorkout(workouts[bad], zoneType).Err?;
    if FormatWorkout(workouts[0], zoneType).Err? {
      assert FirstFailure(workouts, zoneType, 0);
    } else {
      var rest := workouts[1..];
      assert !Formattable(rest[bad - 1]);
      FormatAllReportsFirstFailure(rest, zoneType);
      var j :| FirstFailure(rest, zoneType, j) && FormatWorkout(rest[j], zoneType) == Err(FormatAll(rest, zoneType).error);
      TailIndex(workouts);
      assert FirstFailure(workouts, zoneType, j + 1);
    }
  }

  /** Workout `k` fails and every workout before it is formatted. */
  ghost predicate FirstFailure(workouts: seq<Workout>, zoneType: ZoneType, k: int) {
    && 0 <= k < |workouts|
    && FormatWorkout(workouts[k], zoneType).Err?
    && forall j :: 0 <= j < k ==> FormatWorkout(workouts[j], zoneType).Ok?
  }

  /** `format_training_data`: a missing `trainings` key is an empty list of workouts. */
  function FormatTrainingData(document: Document, zoneType: ZoneType): (r: Result<seq<Event>, FormatError>)
    ensures document.trainings.None? ==> r == Ok([])
    ensures r.Ok? ==> |r.value| == |document.trainings.GetOr([])|
  {
    FormatAll(document.trainings.GetOr([]), zoneType)
  }

  // ---------------------------------------------------------------------
  // Upload outcome (upload_training.py:64)
  // ---------------------------------------------------------------------

  /** The upload succeeded exactly when the HTTP status is in the 2xx (success) class. */
  function UploadSucceeded(statusCode: int): (ok: bool)
    ensures ok <==> statusCode / 100 == 2
  {
    200 <= statusCode < 300
  }
}
