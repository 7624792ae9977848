/**
  Properties of the workout formatter that relate several calls or pin down
  its edge cases: how moving times add up, which error wins, when the
  stripped description equals the joined lines, how the sport tag behaves
  when a name grows, and the worked example of one two-step run.
 */
module FormatterProperties {
  import opened Outcomes
  import opened Text
  import opened Schema
  import opened Duration
  import opened Formatter

  // ---------------------------------------------------------------------
  // Moving time
  // ---------------------------------------------------------------------

  /**
    The moving time of two step lists run back to back is the sum of their
    moving times; when either fails, the first failure in order is reported.
   */
  lemma {:induction false} MovingTimeAppend(a: seq<Step>, b: seq<Step>)
    ensures MovingTime(a).Ok? && MovingTime(b).Ok? ==>
              MovingTime(a + b).Ok? && MovingTime(a + b).value == MovingTime(a).value + MovingTime(b).value
    ensures MovingTime(a).Err? ==> MovingTime(a + b) == MovingTime(a)
    ensures MovingTime(a).Ok? && MovingTime(b).Err? ==> MovingTime(a + b) == MovingTime(b)
    decreases |a|
  {
    if |a| == 0 {
      assert a + b == b;
    } else {
      var ab := a + b;
      assert ab[0] == a[0];
      assert ab[1..] == a[1..] + b;
      MovingTimeAppend(a[1..], b);
      var first := StepSeconds(a[0]);
      var restA := MovingTime(a[1..]);
      var restAB := MovingTime(ab[1..]);
      if first.Err? {
        assert MovingTime(a) == Err(first.error);
        assert MovingTime(ab) == Err(first.error);
      } else if restA.Err? {
        assert MovingTime(a) == restA;
        assert restAB == restA;
        assert MovingTime(ab) == restA;
      }
    }
  }

  /** Every step's seconds count towards the moving time. */
  lemma {:induction false} StepWithinMovingTime(steps: seq<Step>, k: int)
    requires MovingTime(steps).Ok? && 0 <= k < |steps|
    ensures StepSeconds(steps[k]).Ok? && StepSeconds(steps[k]).value <= MovingTime(steps).value
    decreases |steps|
  {
    DurationsParseCons(steps);
    var first := StepSeconds(steps[0]);
    var rest := MovingTime(steps[1..]);
    assert MovingTime(steps).value == first.value + rest.value;
    if k > 0 {
      assert steps[1..][k - 1] == steps[k];
      StepWithinMovingTime(steps[1..], k - 1);
    }
  }

  /** A single step contributes exactly its own seconds. */
  lemma MovingTimeSingle(step: Step)
    ensures MovingTime([step]) == StepSeconds(step)
  {
    assert [step][1..] == [];
  }

  // ---------------------------------------------------------------------
  // Edge cases of one workout
  // ---------------------------------------------------------------------

  /** A workout with no steps has an empty description, no moving time and no targets. */
  lemma NoStepsWorkout(name: string, date: string, zoneType: ZoneType)
    ensures FormatWorkout(Workout(Some(name), Some(date), Some([])), zoneType)
            == Ok(Event(date + "T00:00:00", "WORKOUT", name, "", Classify(name), 0, []))
  {
    assert Join([], "\n") == "";
    StripUnchanged("");
  }

  /**
    A missing `steps` key is not treated as an empty list: the description
    loop defaults it, but the moving-time sum then fails on it.
   */
  lemma MissingStepsFails(name: string, date: string, zoneType: ZoneType)
    ensures FormatWorkout(Workout(Some(name), Some(date), None), zoneType) == Err(MissingKey("steps"))
  {
  }

  /**
    A first step without a description fails before anything else is read,
    although the target list would default the description to "".
   */
  lemma MissingDescriptionFailsFirst(w: Workout, zoneType: ZoneType)
    requires w.steps.Some? && |w.steps.value| > 0 && w.steps.value[0].description.None?
    ensures FormatWorkout(w, zoneType) == Err(MissingKey("description"))
  {
    var steps := w.steps.value;
    assert DescriptionLines(steps, zoneType) == Err(MissingKey("description"));
  }

  /** A missing `date` is reported before a missing `name`. */
  lemma MissingDateBeforeName(steps: seq<Step>, zoneType: ZoneType)
    requires forall k :: 0 <= k < |steps| ==> HasLineKeys(steps[k])
    ensures FormatWorkout(Workout(None, None, Some(steps)), zoneType) == Err(MissingKey("date"))
  {
  }

  // ---------------------------------------------------------------------
  // Description
  // ---------------------------------------------------------------------

  /** No field of the step that is written into the description holds a newline. */
  predicate NoNewline(step: Step) {
    && '\n' !in step.description.GetOr("")
    && '\n' !in step.duration.GetOr("")
    && '\n' !in step.zone.GetOr("")
  }

  /**
    When the first step's description starts with a visible character,
    stripping removes nothing: the description is exactly the step lines
    joined by single newlines (the last line always ends with the zone type).
   */
  lemma DescriptionIsJoinedLines(steps: seq<Step>, zoneType: ZoneType)
    requires |steps| > 0
    requires forall k :: 0 <= k < |steps| ==> HasLineKeys(steps[k])
    requires steps[0].description.Some? && StartsVisibly(steps[0].description.value)
    ensures DescriptionLines(steps, zoneType).Ok?
    ensures Description(DescriptionLines(steps, zoneType).value) == Join(DescriptionLines(steps, zoneType).value, "\n")
  {
    var lines := DescriptionLines(steps, zoneType).value;
    var n := |steps| - 1;
    assert lines[0] == steps[0].description.value;
    assert EndsVisibly(lines[|lines| - 1]) by {
      LastLineEndsVisibly(steps, zoneType);
    }
    StripJoinVisible(lines, "\n");
  }

  /** The first target line of a non-empty step list starts with "-". */
  lemma SecondLineStartsWithDash(steps: seq<Step>, zoneType: ZoneType)
    requires |steps| > 0
    requires DescriptionLines(steps, zoneType).Ok?
    ensures var lines := DescriptionLines(steps, zoneType).value;
            |lines[1]| > 0 && lines[1][0] == '-' && StartsVisibly(lines[1])
  {
  }

  /** The last description line is a target line, so it ends with the zone type's last letter. */
  lemma LastLineEndsVisibly(steps: seq<Step>, zoneType: ZoneType)
    requires |steps| > 0
    requires DescriptionLines(steps, zoneType).Ok?
    ensures var lines := DescriptionLines(steps, zoneType).value;
            var last := lines[|lines| - 1];
            && EndsVisibly(last)
            && last[|last| - 1] == zoneType.Name()[|zoneType.Name()| - 1]
  {
    var lines := DescriptionLines(steps, zoneType).value;
    var n := |steps| - 1;
    var last := TargetLine(steps[n].duration.value, steps[n].zone.value, zoneType);
    assert lines[2 * n + 1] == last;
    assert last[|last| - 1] == zoneType.Name()[|zoneType.Name()| - 1];
  }

  /** An empty first line, and nothing else, is lost when a join of visible-ended lines is stripped. */
  lemma StripBlankFirstLine(lines: seq<string>)
    requires |lines| >= 2 && lines[0] == ""
    requires StartsVisibly(lines[1]) && EndsVisibly(lines[|lines| - 1])
    ensures Strip(Join(lines, "\n")) == Join(lines[1..], "\n")
  {
    var rest := lines[1..];
    var joined := Join(rest, "\n");
    assert Join(lines, "\n") == ['\n'] + joined by {
      assert Join(lines, "\n") == lines[0] + "\n" + joined;
    }
    assert rest[0] == lines[1];
    assert rest[|rest| - 1] == lines[|lines| - 1];
    JoinVisibleEnds(rest, "\n");
    StripOneLeadingSpace('\n', joined);
  }

  /**
    When the first step's description is empty, stripping drops that empty
    line together with the newline after it.
   */
  lemma BlankFirstDescriptionDropped(steps: seq<Step>, zoneType: ZoneType)
    requires |steps| > 0
    requires forall k :: 0 <= k < |steps| ==> HasLineKeys(steps[k])
    requires steps[0].description == Some("")
    ensures DescriptionLines(steps, zoneType).Ok?
    ensures var lines := DescriptionLines(steps, zoneType).value;
            Description(lines) == Join(lines[1..], "\n")
  {
    var lines := DescriptionLines(steps, zoneType).value;
    assert lines[0] == "";
    SecondLineStartsWithDash(steps, zoneType);
    assert EndsVisibly(lines[|lines| - 1]) by {
      LastLineEndsVisibly(steps, zoneType);
    }
    StripBlankFirstLine(lines);
  }

  /** A step's target line holds a newline only if its duration or zone does. */
  lemma TargetLineNoNewline(duration: string, zone: string, zoneType: ZoneType)
    requires '\n' !in duration && '\n' !in zone
    ensures '\n' !in TargetLine(duration, zone, zoneType)
  {
    assert '\n' !in zoneType.Name();
  }

  /** No description line holds a newline when no step field does. */
  lemma {:induction false} LinesHaveNoNewline(steps: seq<Step>, zoneType: ZoneType)
    requires DescriptionLines(steps, zoneType).Ok?
    requires forall k :: 0 <= k < |steps| ==> NoNewline(steps[k])
    ensures var lines := DescriptionLines(steps, zoneType).value;
            forall i :: 0 <= i < |lines| ==> '\n' !in lines[i]
    decreases |steps|
  {
    if |steps| > 0 {
      var step := steps[0];
      assert NoNewline(step);
      TargetLineNoNewline(step.duration.value, step.zone.value, zoneType);
      assert forall k :: 1 <= k < |steps| ==> steps[1..][k - 1] == steps[k];
      LinesHaveNoNewline(steps[1..], zoneType);
    }
  }

  /**
    Splitting the description at newlines gives back the step lines, when
    the first description starts with a visible character and no field holds
    a newline of its own.
   */
  lemma DescriptionSplitsIntoLines(steps: seq<Step>, zoneType: ZoneType)
    requires |steps| > 0
    requires forall k :: 0 <= k < |steps| ==> HasLineKeys(steps[k])
    requires steps[0].description.Some? && StartsVisibly(steps[0].description.value)
    requires forall k :: 0 <= k < |steps| ==> NoNewline(steps[k])
    ensures DescriptionLines(steps, zoneType).Ok?
    ensures Split(Description(DescriptionLines(steps, zoneType).value), '\n') == DescriptionLines(steps, zoneType).value
  {
    DescriptionIsJoinedLines(steps, zoneType);
    LinesHaveNoNewline(steps, zoneType);
    SplitJoin(DescriptionLines(steps, zoneType).value, '\n');
  }

  // ---------------------------------------------------------------------
  // Sport classification
  // ---------------------------------------------------------------------

  /** Extra text around a name never demotes a "Bike" name from "Ride". */
  lemma RideIsStable(p: string, name: string, q: string)
    requires Classify(name) == Ride
    ensures Classify(p + name + q) == Ride
  {
    ContainsInfix(p, name, q, "Bike");
  }

  /** Extra text without "Bike" in the result keeps a "Run" name a run. */
  lemma RunIsStable(p: string, name: string, q: string)
    requires Classify(name) == Run
    requires !Contains(p + name + q, "Bike")
    ensures Classify(p + name + q) == Run
  {
    ContainsInfix(p, name, q, "Run");
  }

  /** "Swim" is the fallback: a name mentioning "Swim" and "Run" is a run. */
  lemma SwimIsOnlyTheFallback()
    ensures Classify("Swim Run") == Run
    ensures Classify("Bike Run") == Ride
  {
    assert OccursAt("Swim Run", "Run", 5);
    NotContainsFirstChar("Swim Run", "Bike");
    assert OccursAt("Bike Run", "Bike", 0);
  }

  // ---------------------------------------------------------------------
  // Worked example
  // ---------------------------------------------------------------------

  /** `sub` occurs in any string that ends with it. */
  lemma ContainsSuffix(p: string, sub: string)
    ensures Contains(p + sub, sub)
  {
    assert (p + sub)[|p|..|p| + |sub|] == sub;
    assert OccursAt(p + sub, sub, |p|);
  }

  /** The description of two steps: four lines joined by newlines. */
  lemma TwoStepDescription(first: Step, second: Step, zoneType: ZoneType)
    requires HasLineKeys(first) && HasLineKeys(second)
    requires StartsVisibly(first.description.value)
    ensures DescriptionLines([first, second], zoneType).Ok?
    ensures Description(DescriptionLines([first, second], zoneType).value)
            == Join([first.description.value,
                     TargetLine(first.duration.value, first.zone.value, zoneType),
                     second.description.value,
                     TargetLine(second.duration.value, second.zone.value, zoneType)], "\n")
  {
    var steps := [first, second];
    var lines := DescriptionLines(steps, zoneType).value;
    DescriptionIsJoinedLines(steps, zoneType);
    assert |lines| == 4;
    assert lines[0] == first.description.value;
    assert lines[1] == TargetLine(first.duration.value, first.zone.value, zoneType);
    assert lines[2 * 1] == second.description.value;
    assert lines[2 * 1 + 1] == TargetLine(second.duration.value, second.zone.value, zoneType);
    assert lines == [lines[0], lines[1], lines[2], lines[3]];
  }

  /** An event's fields are the results of the parts of the formatter. */
  lemma FormatWorkoutParts(w: Workout, zoneType: ZoneType)
    requires Formattable(w)
    ensures var r := FormatWorkout(w, zoneType);
            && r.Ok?
            && r.value.movingTime == MovingTime(w.steps.value).value
            && r.value.description == Description(DescriptionLines(w.steps.value, zoneType).value)
            && r.value.steps == StepTargets(w.steps.value).value
  {
  }

  /** The moving time of a step of `m` minutes followed by one of `s` seconds. */
  lemma TwoStepMovingTime(first: Step, second: Step, m: string, s: string)
    requires IsDecimal(m) && IsDecimal(s)
    requires first.duration == Some(m + "m") && second.duration == Some(s + "s")
    ensures MovingTime([first, second]).Ok?
    ensures MovingTime([first, second]).value == 60 * DigitsValue(m) + DigitsValue(s)
  {
    MinutesToken(m);
    SecondsToken(s);
    MovingTimeSingle(first);
    MovingTimeSingle(second);
    MovingTimeAppend([first], [second]);
    assert [first] + [second] == [first, second];
  }

  /**
    A run of one step of `m` minutes and one of `s` seconds: the event
    carries the date at midnight, the type "Run", the moving time
    60 * m + s, the four description lines, and one target per step.
   */
  lemma TwoStepRun(name: string, date: string, warmUp: string, m: string, z1: string,
                   main: string, s: string, z2: string, zoneType: ZoneType)
    requires Contains(name, "Run") && !Contains(name, "Bike")
    requires IsDecimal(m) && IsDecimal(s)
    requires StartsVisibly(warmUp)
    ensures var first := Step(Some(warmUp), Some(m + "m"), Some(z1), None);
            var second := Step(Some(main), Some(s + "s"), Some(z2), None);
            var r := FormatWorkout(Workout(Some(name), Some(date), Some([first, second])), zoneType);
            && r.Ok?
            && r.value.startDateLocal == date + "T00:00:00"
            && r.value.category == "WORKOUT"
            && r.value.name == name
            && r.value.sport == Run
            && r.value.movingTime == 60 * DigitsValue(m) + DigitsValue(s)
            && r.value.description == Join([warmUp, TargetLine(m + "m", z1, zoneType),
                                            main, TargetLine(s + "s", z2, zoneType)], "\n")
            && r.value.steps == [StepTarget(warmUp, m + "m", "zone", z1, "Free"),
                                 StepTarget(main, s + "s", "zone", z2, "Free")]
  {
    var first := Step(Some(warmUp), Some(m + "m"), Some(z1), None);
    var second := Step(Some(main), Some(s + "s"), Some(z2), None);
    var steps := [first, second];
    var w := Workout(Some(name), Some(date), Some(steps));
    TwoStepMovingTime(first, second, m, s);
    TwoStepDescription(first, second, zoneType);
    TwoStepTargets(first, second);
    assert Formattable(w);
    FormatWorkoutParts(w, zoneType);
  }

  /** Two steps without a cadence give two targets with the cadence "Free". */
  lemma TwoStepTargets(first: Step, second: Step)
    requires first.duration.Some? && first.zone.Some? && first.cadence.None?
    requires second.duration.Some? && second.zone.Some? && second.cadence.None?
    ensures StepTargets([first, second]).Ok?
    ensures StepTargets([first, second]).value
            == [StepTarget(first.description.GetOr(""), first.duration.value, "zone", first.zone.value, "Free"),
                StepTarget(second.description.GetOr(""), second.duration.value, "zone", second.zone.value, "Free")]
  {
    var t := StepTargets([first, second]).value;
    assert t == [t[0], t[1]];
  }

  lemma JoinFour(a: string, b: string, c: string, d: string, sep: string)
    ensures Join([a, b, c, d], sep) == a + sep + b + sep + c + sep + d
  {
    assert [a, b, c, d][1..] == [b, c, d];
    assert [b, c, d][1..] == [c, d];
    assert [c, d][1..] == [d];
    assert Join([c, d], sep) == c + sep + d;
    assert Join([b, c, d], sep) == b + sep + (c + sep + d);
    assert Join([a, b, c, d], sep) == a + sep + (b + sep + (c + sep + d));
  }

  /** "Morning Run" with a 10-minute warm-up and a 30-second tempo step, zone type "HR". */
  lemma WorkedExample()
    ensures var r := FormatWorkout(Workout(Some("Morning Run"), Some("2024-05-01"),
                                           Some([Step(Some("Warm up"), Some("10m"), Some("Z2"), None),
                                                 Step(Some("Tempo"), Some("30s"), Some("Z4"), None)])), HR);
            && r.Ok?
            && r.value.sport == Run
            && r.value.movingTime == 630
            && r.value.description == "Warm up\n- 10m in Z2 HR\nTempo\n- 30s in Z4 HR"
  {
    MorningRunIsRun();
    ExampleTokens();
    TwoStepRun("Morning Run", "2024-05-01", "Warm up", "10", "Z2", "Tempo", "30", "Z4", HR);
    ExampleDescriptionText();
  }

  lemma MorningRunIsRun()
    ensures Contains("Morning Run", "Run") && !Contains("Morning Run", "Bike")
  {
    assert "Morning Run" == "Morning " + "Run";
    ContainsSuffix("Morning ", "Run");
    NotContainsFirstChar("Morning Run", "Bike");
  }

  lemma ExampleTokens()
    ensures "10m" == "10" + "m" && "30s" == "30" + "s"
    ensures IsDecimal("10") && IsDecimal("30")
    ensures DigitsValue("10") == 10 && DigitsValue("30") == 30
  {
    assert "10"[..1] == "1";
    assert "30"[..1] == "3";
  }

  lemma ExampleDescriptionText()
    ensures Join(["Warm up", TargetLine("10" + "m", "Z2", HR), "Tempo", TargetLine("30" + "s", "Z4", HR)], "\n")
            == "Warm up\n- 10m in Z2 HR\nTempo\n- 30s in Z4 HR"
  {
    ExampleTargetLines();
    JoinFour("Warm up", "- 10m in Z2 HR", "Tempo", "- 30s in Z4 HR", "\n");
    ExampleConcatenation();
  }

  lemma ExampleConcatenation()
    ensures "Warm up" + "\n" + "- 10m in Z2 HR" + "\n" + "Tempo" + "\n" + "- 30s in Z4 HR"
            == "Warm up\n- 10m in Z2 HR\nTempo\n- 30s in Z4 HR"
  {
  }

  lemma ExampleTargetLines()
    ensures TargetLine("10" + "m", "Z2", HR) == "- 10m in Z2 HR"
    ensures TargetLine("30" + "s", "Z4", HR) == "- 30s in Z4 HR"
  {
  }
}
