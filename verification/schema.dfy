/**
  The records that `format_training_data` in upload_training.py reads and
  writes. Input records are parsed JSON objects whose keys may be missing,
  so every field the code looks up is an `Option`; output records are built
  in full, so their fields are plain values.
 */
module Schema {
  import opened Outcomes

  /** One step of a workout: the keys `description`, `duration`, `zone`, `cadence`. */
  datatype Step = Step(
    description: Option<string>,
    duration: Option<string>,
    zone: Option<string>,
    cadence: Option<string>)

  /** One planned workout: the keys `name`, `date` (`YYYY-MM-DD`) and `steps`. */
  datatype Workout = Workout(
    name: Option<string>,
    date: Option<string>,
    steps: Option<seq<Step>>)

  /** The whole input document: the optional top-level key `trainings`. */
  datatype Document = Document(trainings: Option<seq<Workout>>)

  /** The sport an event is filed under (its `type` key). */
  datatype Sport = Ride | Run | Swim {
    function Name(): string {
      match this
      case Ride => "Ride"
      case Run => "Run"
      case Swim => "Swim"
    }
  }

  /** What the zone of a step refers to: the `ZONE_TYPE` setting, "HR" or "Pace". */
  datatype ZoneType = HR | Pace {
    function Name(): (s: string)
      ensures |s| > 0 && s[|s| - 1] != ' '
    {
      match this
      case HR => "HR"
      case Pace => "Pace"
    }
  }

  /** One entry of an event's `steps` list. */
  datatype StepTarget = StepTarget(
    description: string,
    duration: string,
    targetType: string,
    targetValue: string,
    cadence: string)

  /** One event of the bulk-upload body. */
  datatype Event = Event(
    startDateLocal: string,
    category: string,
    name: string,
    description: string,
    sport: Sport,
    movingTime: nat,
    steps: seq<StepTarget>)

  /**
    The exceptions the formatter can raise: a `KeyError` for a missing key,
    and the `ValueError` of `int()` on the text left after stripping units.
   */
  datatype FormatError = MissingKey(key: string) | InvalidInt(text: string)

  /** Look up a required key: `d[key]`. */
  function Required<T>(field: Option<T>, key: string): (r: Result<T, FormatError>)
    ensures r.Ok? <==> field.Some?
    ensures r.Ok? ==> r.value == field.value
    ensures r.Err? ==> r.error == MissingKey(key)
  {
    match field
    case Some(v) => Ok(v)
    case None => Err(MissingKey(key))
  }
}
