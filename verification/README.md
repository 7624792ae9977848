# Intervals.icu training upload: a Dafny model

The repository uploads planned workouts to the Intervals.icu calendar. A
JSON document holds a list of `trainings`, each with a name, a date and a
list of steps; a step has a description, a duration token such as `10m` or
`30s`, a heart-rate or pace zone and optionally a cadence.
`format_training_data` turns every training into one event of the bulk-upload
request body:

- the start date at midnight;
- the category `WORKOUT`;
- the sport, classified from the name;
- a description: two lines per step, joined by newlines and stripped;
- the moving time in seconds, summed from the duration tokens;
- one zone target per step.

`upload_trainings` posts that body and reports success for a 2xx status. A
second script, `url-to-markdown.py`, reads a file of documentation URLs and
saves each page as Markdown under a name derived from its URL.

The model covers the pure core of both scripts.

- `Outcomes` (outcomes.dfy): `Option` and `Result`. A Python `KeyError` or
  `ValueError` becomes an `Err`.
- `Text` (text.dfy): the Python string operations the core relies on:
  - `str.strip`, with Python's whitespace set;
  - the `in` test on strings;
  - `str.replace(pat, "")`, scanning left to right without overlaps;
  - `str.join` and `str.split`;
  - `int()` on ASCII digit strings, and `str()` on naturals.
- `Schema` (schema.dfy): the input document (every key optional), the event
  and step-target records, the sports, the zone types and the two error kinds.
- `Duration` (duration.dfy): the reading of one duration token.
- `Formatter` (formatter.dfy): `format_training_data` and the upload success
  test.
- `FormatterProperties` (formatter_properties.dfy): properties that relate
  several of these operations.
- `UrlFiles` (url_files.dfy): the URL list and the output file names of
  `process_url_file`.

Three behaviours of the code shape the model:

- Step lines are joined by a single `"\n"`.
- A duration token that `int()` cannot read raises `ValueError`, which aborts
  the whole call.
- An `m` anywhere in a token selects the factor 60, so a token containing
  `km` is counted as minutes.

Errors are reported in the order in which the Python code evaluates its
lookups:

- the description loop comes first;
- then the dict literal, key by key: `date`, then `name`, then `steps`;
- then the moving-time sum;
- then the target list.

## Model

| member | source | states |
|---|---|---|
| Text.Strip | upload_training.py:42 | the result is empty exactly when the input is all whitespace; otherwise it starts and ends with a non-space; it is a contiguous piece of the input with only whitespace cut from either side |
| Text.StripIdempotent | Intervals.icu-api-docs/url-to-markdown.py:65 | stripping twice is stripping once |
| Text.StripOneLeadingSpace | upload_training.py:42 | a single leading whitespace character in front of visible-ended text is removed, and nothing else is |
| Text.Contains | upload_training.py:43 | `sub in s` is true exactly when `sub` occurs at some position of `s` |
| Text.ContainsInfix | upload_training.py:43 | a substring of `name` is also a substring of any text that contains `name` |
| Text.RemoveAll | upload_training.py:45 | `replace(pat, "")` never makes the text longer |
| Text.RemoveAllOnlyDeletes | upload_training.py:45 | `replace(pat, "")` only deletes characters: the result's multiset of characters is contained in the input's |
| Text.RemoveAllKeepsOthers | upload_training.py:45 | a character that does not occur in the pattern keeps its count |
| Text.RemoveAllChar | upload_training.py:45 | removing a one-character pattern deletes every copy of that character and keeps every other character's count |
| Text.RemoveAllAfterPrefix | Intervals.icu-api-docs/url-to-markdown.py:76 | the first occurrence after a prefix without the pattern's first character is removed, and the scan continues after it |
| Text.Split | Intervals.icu-api-docs/url-to-markdown.py:73 | `split(c)` gives at least one piece, and no piece contains `c` |
| Text.JoinSplit | Intervals.icu-api-docs/url-to-markdown.py:73 | joining the pieces of `split(c)` with `c` gives the original text back |
| Text.JoinEnds | upload_training.py:42 | `sep.join` of no parts is the empty string; otherwise the join begins with its first part and ends with its last |
| Text.SplitJoin | upload_training.py:42 | splitting a join of pieces without `c` gives the pieces back |
| Text.SplitConcat | Intervals.icu-api-docs/url-to-markdown.py:73 | splitting `a + c + b` splits `a` and `b` separately |
| Text.ParseNat | upload_training.py:45 | the model's `int()` succeeds exactly on non-empty strings of ASCII digits (Python's accepts more; see Left out) |
| Text.ParseNatToString | upload_training.py:45 | `int(str(n)) == n` for every natural number `n` |
| Duration.StripUnits | upload_training.py:45 | deleting "km", "m" and "s" leaves no `m` or `s` in the token and only ever removes characters |
| Duration.ParseDuration | upload_training.py:45 | the token parses exactly when its unit-stripped text is decimal, and fails with that text otherwise; with an `m` in the token the value is 60 times the number read, without one it is the number itself |
| Duration.StripUnitsOfDecimal | upload_training.py:45 | a number followed by nothing, `s`, `m` or `km` loses exactly the unit |
| Duration.MinutesToken | upload_training.py:45 | `"<n>m"` is `60 * n` seconds |
| Duration.KilometresCountAsMinutes | upload_training.py:45 | `"<n>km"` is also `60 * n` seconds |
| Duration.SecondsToken | upload_training.py:45 | `"<n>s"` is `n` seconds |
| Duration.BareNumberToken | upload_training.py:45 | a bare number is that many seconds |
| Duration.MinutesRoundTrip | upload_training.py:45 | `str(n) + "m"` reads back as `60 * n` for every `n` |
| Duration.SecondsRoundTrip | upload_training.py:45 | `str(n) + "s"` reads back as `n` for every `n` |
| Duration.ForeignCharacterRejected | upload_training.py:45 | in the model, a token holding any character other than an ASCII digit, `k`, `m` or `s` fails with `InvalidInt` of its unit-stripped text, because deleting units never deletes that character (Python's `int()` would still accept a sign, whitespace or underscores; see Left out) |
| Duration.UnitOnlyTokenRejected | upload_training.py:45 | the empty token, `m` and `km` leave `int("")`, which raises |
| Duration.CompoundTokenIsOneNumber | upload_training.py:45 | `"<a>m<b>s"` is not a sum of units: all digits form one number, which is then taken as minutes |
| Formatter.Classify | upload_training.py:43 | Ride exactly when the name contains "Bike"; Run exactly when it contains "Run" but not "Bike"; Swim exactly when it contains neither |
| Formatter.DescriptionLines | upload_training.py:34-37 | succeeds exactly when every step has a description, a duration and a zone; gives two lines per step: line `2k` is step `k`'s description, line `2k+1` its target line |
| Formatter.Description | upload_training.py:42 | no lines give the empty description; lines whose first line starts and last line ends with a visible character come out exactly as their newline join |
| Formatter.MovingTime | upload_training.py:44-47 | the sum succeeds exactly when every step's duration is present and parses |
| Formatter.StepTargets | upload_training.py:48-57 | succeeds exactly when every step has a duration and a zone; gives one target per step, in order, with the target type "zone", the step's zone, its duration, and its description and cadence defaulting to "" and "Free" |
| Formatter.FormatWorkout | upload_training.py:38-58 | succeeds exactly when the training has a name, a date and steps, every step has the description-line keys, and every duration parses; the event carries the date at midnight, the category WORKOUT, the name, the sport classified from the name, and one target per step |
| Formatter.FormatAll | upload_training.py:32-59 | succeeds exactly when every training formats; gives one event per training, in order, each being that training's event |
| Formatter.FormatAllReportsFirstFailure | upload_training.py:32-59 | when some training lacks a key or has an unreadable duration, the list fails, with the error of the first training that fails; every training before that one formats |
| Formatter.FormatTrainingData | upload_training.py:33 | a document without `trainings` gives no events; otherwise one event per training |
| Formatter.UploadSucceeded | upload_training.py:64 | the upload counts as successful exactly when the status code is in the 2xx class |
| FormatterProperties.MovingTimeAppend | upload_training.py:44-47 | the moving time of two step lists run back to back is the sum of their moving times; if either fails, the first failure in order is the result |
| FormatterProperties.StepWithinMovingTime | upload_training.py:44-47 | when the sum succeeds, every step's seconds parse and none exceeds the total |
| FormatterProperties.MovingTimeSingle | upload_training.py:44-47 | a single step contributes exactly its own seconds |
| FormatterProperties.NoStepsWorkout | upload_training.py:38-58 | a training with an empty step list gives an empty description, a moving time of 0 and no targets |
| FormatterProperties.MissingStepsFails | upload_training.py:35 | a missing `steps` key is defaulted only by the description loop; the moving-time sum then raises `KeyError('steps')` |
| FormatterProperties.MissingDescriptionFailsFirst | upload_training.py:36 | a first step without a description raises `KeyError('description')`, although the target list would default it |
| FormatterProperties.MissingDateBeforeName | upload_training.py:39-41 | a training missing both `date` and `name` reports `date` |
| FormatterProperties.DescriptionIsJoinedLines | upload_training.py:42 | when the first description starts with a visible character, stripping removes nothing and the description is the lines joined by single newlines |
| FormatterProperties.SecondLineStartsWithDash | upload_training.py:37 | the first target line starts with "-" |
| FormatterProperties.LastLineEndsVisibly | upload_training.py:37 | the last description line ends with the zone type's last letter |
| FormatterProperties.StripBlankFirstLine | upload_training.py:42 | for lines with visible ends, stripping the join drops an empty first line and nothing else |
| FormatterProperties.BlankFirstDescriptionDropped | upload_training.py:36-42 | an empty first description is lost from the event description, together with the newline after it |
| FormatterProperties.TargetLineNoNewline | upload_training.py:37 | a target line holds no newline when the duration and the zone hold none |
| FormatterProperties.LinesHaveNoNewline | upload_training.py:34-37 | no description line holds a newline when no step field does |
| FormatterProperties.DescriptionSplitsIntoLines | upload_training.py:34-42 | splitting the event description at newlines gives back exactly the description lines, when no field holds a newline and the first description starts visibly |
| FormatterProperties.RideIsStable | upload_training.py:43 | adding text around a Ride name keeps it a Ride |
| FormatterProperties.RunIsStable | upload_training.py:43 | adding text around a Run name keeps it a Run, unless the result mentions "Bike" |
| FormatterProperties.SwimIsOnlyTheFallback | upload_training.py:43 | "Swim Run" is a Run and "Bike Run" is a Ride |
| FormatterProperties.TwoStepDescription | upload_training.py:34-42 | the description of two steps is their four lines joined by newlines |
| FormatterProperties.FormatWorkoutParts | upload_training.py:42-57 | an event's description, moving time and targets are those of the step list |
| FormatterProperties.TwoStepMovingTime | upload_training.py:44-47 | a step of `m` minutes followed by one of `s` seconds lasts `60 * m + s` seconds |
| FormatterProperties.TwoStepRun | upload_training.py:38-58 | a two-step run gives the full expected event: date, category, name, Run, `60 * m + s`, the four-line description and both targets |
| FormatterProperties.TwoStepTargets | upload_training.py:48-57 | two steps without a cadence give two targets with the cadence "Free" |
| FormatterProperties.WorkedExample | upload_training.py:38-58 | "Morning Run" with steps of 10m in Z2 and 30s in Z4 is a Run of 630 seconds, described as "Warm up\n- 10m in Z2 HR\nTempo\n- 30s in Z4 HR" |
| UrlFiles.CleanUrls | Intervals.icu-api-docs/url-to-markdown.py:65 | at most one URL per line; every URL is non-empty and already stripped |
| UrlFiles.CleanUrlsSingle | Intervals.icu-api-docs/url-to-markdown.py:65 | a blank line gives no URL; any other line gives its stripped text |
| UrlFiles.CleanUrlsAppend | Intervals.icu-api-docs/url-to-markdown.py:65 | the lines are processed one by one, in order: cleaning distributes over concatenation |
| UrlFiles.CleanUrlsMembers | Intervals.icu-api-docs/url-to-markdown.py:65 | a URL is in the list exactly when it is not empty and some line strips to it |
| UrlFiles.CleanUrlsIdempotent | Intervals.icu-api-docs/url-to-markdown.py:65 | cleaning an already cleaned list changes nothing |
| UrlFiles.DropHtmlExt | Intervals.icu-api-docs/url-to-markdown.py:76 | removing ".html" and then ".htm" only ever deletes characters from the segment |
| UrlFiles.FileStem | Intervals.icu-api-docs/url-to-markdown.py:73-76 | the stem is missing (the `IndexError`) exactly for the empty URL; a stem never contains "/" |
| UrlFiles.OutputFileName | Intervals.icu-api-docs/url-to-markdown.py:73-77 | a name exists exactly for a non-empty URL; it is the URL's file stem followed by ".md", so it has no "/" |
| UrlFiles.StemOfLastSegment | Intervals.icu-api-docs/url-to-markdown.py:73-76 | a URL with a non-empty last segment is named after that segment |
| UrlFiles.StemOfSingleSegment | Intervals.icu-api-docs/url-to-markdown.py:73-76 | a URL without "/" is named after itself |
| UrlFiles.StemOfTrailingSlash | Intervals.icu-api-docs/url-to-markdown.py:73-76 | a URL ending in "/" (including "docs/" and "/") is named after the segment before that slash; an empty segment there, as in "/" or "a//", gives the stem "" |
| UrlFiles.PageFileName | Intervals.icu-api-docs/url-to-markdown.py:73-77 | for a page name without dots, the URLs `<path>/<page>`, `<path>/<page>.html` and `<path>/<page>.htm` are all saved as `<page>.md` |
| UrlFiles.DirectoryFileName | Intervals.icu-api-docs/url-to-markdown.py:73-77 | a URL ending in `<dir>/` is saved under the directory's name with `.html` and `.htm` removed, plus ".md" |
| UrlFiles.HtmlExtensionsDropped | Intervals.icu-api-docs/url-to-markdown.py:76 | for a name without dots, `name.html` and `name.htm` both give `name` |
| UrlFiles.ReversedReplacementsLeaveL | Intervals.icu-api-docs/url-to-markdown.py:76 | swapping the two replacements would turn `name.html` into `namel`, which the code as written does not produce |
| UrlFiles.CleanedUrlsHaveNames | Intervals.icu-api-docs/url-to-markdown.py:65-77 | every URL of the cleaned list gets an output file name, so the `IndexError` of line 75 cannot occur |

## Left out

- Reading `ATHLETE_ID` and `API_KEY` from the environment and the `ValueError` when they are missing (upload_training.py:7-10). This is environment access.
- `encode_auth` and the request headers (upload_training.py:16-22). Base64 encoding of the key only serves the HTTP request.
- `load_trainings` (upload_training.py:24-29). File I/O and JSON parsing are outside the model, which starts from the parsed document.
- Values of other JSON types. Every field is modelled as a string. A number or a list in a field, the `TypeError` it would raise, and `f"{...}"` applied to a non-string are left out.
- `ZONE_TYPE` (upload_training.py:13) is a parameter that takes the values "HR" and "Pace", not a module constant.
- The HTTP request and the messages of `upload_trainings` (upload_training.py:61-67), and the `__main__` blocks of both scripts. These are network access and printing. Only the status-code test is modelled.
- Duration.ParseDuration: `int()` also accepts surrounding whitespace, a sign, underscores between digits and non-ASCII digits. The model accepts ASCII digit strings only.
- Text.ParseNat: Python's `int()` also succeeds on " 7", "+7", "-7", "1_0" and non-ASCII decimal digits, and since Python 3.11 it refuses strings of more than 4300 digits. The model succeeds exactly on non-empty ASCII digit strings of any length.
- Duration.ForeignCharacterRejected: holds of the model only. In the program, tokens such as "+5m", " 10m" and "1_0s" are read as 300, 600 and 10 seconds, not rejected, because the model's `int()` is narrower than Python's.
- `extract_main_content` and `url_to_markdown` (url-to-markdown.py:8-55). These are an HTTP fetch, HTML parsing and Markdown conversion by libraries outside the model.
- Creating the output directory, reading the URL file and writing the Markdown files (url-to-markdown.py:60-64, 79-82). This is file I/O. The URL file is modelled as the sequence of lines it yields.
- The `if markdown:` test (url-to-markdown.py:71). It depends on the fetch result. The file name is modelled for every URL.
- UrlFiles.OutputFileName gives the name relative to the output directory. Joining it to the `Path` of that directory is left out.
