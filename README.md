# DST fixture generator and ingestion handler, modelled in Dafny

The repository generates three CSV fixture files of quarter-hourly readings for one
site in the `Europe/Paris` zone (`main.py`): a regular day, the spring-forward day
(whose local hour 02:00-02:59 does not exist, but is written anyway with zone-naive
timestamps) and the fall-back day (whose hour 2 occurs twice, written twice with a
`fold` column of "0" and "1"). An S3-triggered handler (`app/handler.py`) counts the
non-blank data lines of an uploaded CSV and writes a small summary next to it under
an aggregate prefix.

The model has six modules:

- `Wrappers` (`wrappers.dfy`): `Option`.
- `Clock` (`clock.dfy`): `YYYY-MM-DD` dates, minutes of the day and the `isoformat`
  rendering of a timestamp whose seconds are zero (`YYYY-MM-DD HH:MM:SS` when naive,
  `YYYY-MM-DDTHH:MM:SS+HH:MM` when zone-aware), with a parser that proves the
  rendering is read back exactly.
- `Generators` (`generators.dfy`): `gen_regular_day`, `gen_spring_forward_day` and
  `gen_fall_back_day` as methods with loops, each proved equal to a function that
  gives the rows of the day; the pseudo-random source is an explicit stream
  `draw: nat -> Unit` with a position `pos`, and each generator returns the position
  after its last draw. The fall-back walk is analysed through its schedule of
  (minute, fold) slots: its length, order and fold consistency.
- `Fixtures` (`fixtures.dfy`): `write_csv` as a `CsvFile` object whose record list
  grows, and `main` as the three generator calls sharing one random stream, each
  followed by a write.
- `Summary` (`summary.dfy`): the handler's `splitlines`/`strip` filter and row
  count, the `str.replace` pass that derives the summary key, and the handler's
  outcome (the summary it writes and the response it returns) as a value.
- `Pipeline` (`pipeline.dfy`): a written fixture's text as the handler reads it once
  uploaded under `raw/`: the handler reports exactly the generated rows (96, 96 and
  100) under `<prefix><site>_<kind>_<date>_summary.json`, the prefix being `agg/`
  by default.

Where the documented behaviour and the code differ, the model follows the code:

- The documentation gives the fall-back row count as `1440/f + 60/f`. The code emits
  one extra row for every step whose hour is 2. That makes `60/f` extra rows when `f`
  divides the hour (`Generators.FallBackCountDividingHour`), and for some other
  intervals too, such as 7 or 50 (`Generators.FallBackCountOtherIntervals`), but not
  for all of them: at `f = 40` the code emits 38 rows where the formula gives 37
  (`Generators.FallBackCountFortyMinutes`). The general count is
  `Generators.FallBackCount`.
- The documentation asks for an interval that does not divide the day to be rejected.
  The code truncates with `int(24 * 60 / freq_min)` and generates that many steps;
  only a zero interval fails (division by zero, before any draw), which the generators
  report as `ok == false`. A negative interval gives an empty day.

## Model

| member | source | states |
|---|---|---|
| Clock.Hour | main.py:57 | definition: `t.hour`, the hour of a minute of the day |
| Clock.Iso | main.py:21 | definition: `isoformat` of a timestamp with zero seconds, space-separated when naive, `T`-separated with the offset when aware |
| Clock.Pad2 | main.py:21 | two decimal digits whose value is the number rendered |
| Clock.WallClock | main.py:21 | the `HH:MM:SS` time of a minute of the day is eight characters long |
| Clock.ParseWallClock | main.py:21 | a parsed wall-clock time is a minute of the day |
| Clock.WallClockRoundTrip | main.py:21 | parsing the rendered time of any minute of the day gives that minute back |
| Clock.ParseWallClockExact | main.py:21 | a string that parses is exactly the rendering of the minute it parses to |
| Clock.IsoRoundTrip | main.py:38 | a rendered timestamp starts with its date, has the separator of its kind (space when naive, `T` when aware) and reads back as its minute |
| Clock.IsoInjective | main.py:59 | two timestamps render alike exactly when they are equal |
| Generators.Magnitude | main.py:20 | a reading `base + span * random()` lies in `[base, base + span]` |
| Generators.Fields | main.py:21 | a row renders to five fields, or six when it carries a fold indicator |
| Generators.StepCount | main.py:19 | definition: `int(24 * 60 / freq_min)`, truncated, and no step for a negative interval |
| Generators.StepTime | main.py:22 | definition: the minute reached after k steps of `t += timedelta(minutes=freq_min)` |
| Generators.RegularRows | main.py:19-22 | definition: the rows `GenRegularDay` is proved to return, step k with the draw pos + k |
| Generators.SpringRows | main.py:35-39 | definition: the rows `GenSpringForwardDay` is proved to return, step k with the draw pos + k |
| Generators.FallBackRows | main.py:53-65 | definition: the rows `GenFallBackDay` is proved to return, slot i of the schedule with the draw pos + i |
| Generators.StepRows | main.py:57-64 | definition: the rows of one step, two at the same timestamp in hour 2 and one otherwise |
| Generators.StepTimeIsProduct | main.py:22 | after k steps of `timedelta(minutes=freq_min)` the walk is at minute `k * freq_min` |
| Generators.StepOnDate | main.py:19 | every step of the walk, and the interval after it, stays within the input date |
| Generators.StepsIncrease | main.py:22 | later steps are strictly later in the day |
| Generators.GenRegularDay | main.py:13-23 | fails exactly for a zero interval, drawing nothing; otherwise returns one row per step, step k with the k-th draw, and advances the stream by the row count |
| Generators.RegularRowTime | main.py:16-21 | row k's timestamp is on the input date, zone-aware, and denotes midnight + k * freq_min |
| Generators.RegularIncreasing | main.py:19-22 | the regular day's timestamps strictly increase |
| Generators.GenSpringForwardDay | main.py:25-40 | fails exactly for a zero interval; otherwise one zone-naive row per step, in draw order, advancing the stream by the row count |
| Generators.SpringRowTime | main.py:38 | row k's timestamp is on the input date, zone-naive, and denotes midnight + k * freq_min |
| Generators.SpringIncreasing | main.py:35-39 | the spring-forward day's timestamps strictly increase |
| Generators.SpringKeepsMissingHour | main.py:35-39 | every walked time in the nonexistent hour 2 is written verbatim, at the row the walk reaches it, with hour `02` |
| Generators.FoldSteps | main.py:57 | no more steps fall in the repeated hour than there are steps |
| Generators.FallBackLength | main.py:53-64 | the walk emits one slot per step plus one per step in hour 2 |
| Generators.FallBackSlotsInRange | main.py:53-65 | every slot is a minute of the date with fold "0" or "1" |
| Generators.FallBackPrefix | main.py:53-65 | the slots of fewer steps are a prefix of the slots of more steps (rows are only appended) |
| Generators.FallBackStepAt | main.py:57-64 | step s sits at slot `s + FoldSteps(s)` with fold "0", followed by its fold "1" twin at the same minute when in hour 2 |
| Generators.NonDecreasingAppend | main.py:53-65 | proof helper: two runs of non-decreasing minutes form one when they meet in order |
| Generators.FoldsAppend | main.py:53-65 | proof helper: two runs with consistent folds form one when the second does not repeat the first's last minute |
| Generators.StepSlotsFacts | main.py:57-64 | one step's slots all carry its minute and are consistent on their own |
| Generators.FallBackBoundary | main.py:65 | after k steps the last slot lies before step k's minute |
| Generators.FallBackNonDecreasing | main.py:53-65 | the fall-back walk's minutes never go backwards |
| Generators.FallBackFolds | main.py:55-64 | equal neighbouring minutes are exactly the fold "1" rows; each follows its fold "0" twin in hour 2, and every fold "0" row of hour 2 has one |
| Generators.FallBackRowsWellFormed | main.py:59-64 | every fall-back row is a naive, six-field row on the date with the constant fields, the i-th row takes the i-th draw, and its minute and fold follow the schedule |
| Generators.FallBackRowsNext | main.py:53-65 | one more step appends exactly that step's rows, two in hour 2 and one otherwise, its first draw following the earlier ones |
| Generators.AppendPair | main.py:59-62 | proof helper (a sequence identity): appending the fold "0" row and then the fold "1" row appends the pair |
| Generators.FallBackStep | main.py:54-64 | the loop body: draws once and emits fold "0"; in hour 2 draws again for a fold "1" row at the same timestamp |
| Generators.GenFallBackDay | main.py:42-66 | fails exactly for a zero interval; otherwise returns the rows of the whole schedule, the i-th row taking the i-th draw, advancing the stream by the row count |
| Generators.FallBackDayOrdered | main.py:42-66 | the rows returned are in time order and carry a consistent fold column |
| Generators.CeilDivLeast | main.py:57 | proof helper (arithmetic): `CeilDiv(c, f)` is the least step count whose product with f reaches c |
| Generators.FoldStepsClosedForm | main.py:57 | the steps in hour 2 are those from `ceil(120/f)` up to, not including, `ceil(180/f)` |
| Generators.FallBackCount | main.py:53-64 | the fall-back day has `n + min(n, ceil(180/f)) - min(n, ceil(120/f))` rows for n steps |
| Generators.FallBackCountDividingHour | main.py:53-64 | for an interval dividing the hour, the day has `1440/f + 60/f` rows |
| Generators.FallBackCountQuarterHour | main.py:93 | at the default 15 minutes: 96 steps and 100 rows |
| Generators.FallBackCountOtherIntervals | main.py:53-64 | at 7 and at 50 minutes, intervals that do not divide the hour, the day still has `1440/f + 60/f` rows |
| Generators.FallBackCountFortyMinutes | main.py:53-64 | at 40 minutes the day has 38 rows, not `1440/f + 60/f` |
| Fixtures.FixtureDatesValid | main.py:83-93 | the three fixture dates are `YYYY-MM-DD` dates |
| Fixtures.CsvFile.constructor | main.py:70 | opening for writing gives an empty file at the path |
| Fixtures.CsvFile.WriteRow | main.py:72-73 | `writerow` appends exactly one record |
| Fixtures.Records | main.py:73 | one record per row, in order, record i rendering row i |
| Fixtures.CsvRecords | main.py:72-73 | definition: the header record followed by the records of the rows |
| Fixtures.WriteCsv | main.py:68-73 | a new file at the path holding the header record and then one record per row, in order |
| Fixtures.CsvRecordsShape | main.py:68-73 | the file has one record more than rows, starts with the header, and every record is as wide as the header |
| Fixtures.FixtureStem | main.py:84 | `site_kind_date`: starts with the site and an underscore, ends with the date |
| Fixtures.FixtureName | main.py:84 | the stem followed by `.csv` |
| Fixtures.FixturePath | main.py:84 | definition: `OUT / name`, the name inside `sample_data/` |
| Fixtures.RegularFixture | main.py:83-86 | writes the regular day of 2024-12-01 at its path, advancing the stream by 96 |
| Fixtures.SpringFixture | main.py:88-91 | writes the spring-forward day of 2024-03-31 at its path, advancing the stream by 96 |
| Fixtures.FallFixture | main.py:93-96 | writes the fall-back day of 2024-10-27 with the fold header, advancing the stream by 100 |
| Fixtures.GenerateFixtures | main.py:75-96 | three new files at their paths; each generator continues the shared stream where the previous stopped (positions pos, pos + 96, pos + 192, ending at pos + 292) |
| Fixtures.RegularFixtureShape | main.py:83-86 | the regular file: 97 records, five fields each |
| Fixtures.SpringFixtureShape | main.py:88-91 | the spring-forward file: 97 records, five fields each |
| Fixtures.FallFixtureShape | main.py:93-96 | the fall-back file: 101 records, six fields each |
| Summary.BreaksAreSpace | app/handler.py:23 | every character `splitlines` breaks at is one `strip` removes |
| Summary.SplitLines | app/handler.py:23 | definition: `splitlines`, cutting at Python's full set of line breaks, `\r\n` as one, with no empty line after a final break |
| Summary.FirstBreak | app/handler.py:23 | the index of the first line break, or -1 when there is none |
| Summary.SplitLinesBreakFree | app/handler.py:23 | no line `splitlines` returns holds a break |
| Summary.SplitLinesWithin | app/handler.py:23 | every character of every line comes from the body |
| Summary.SplitLinesStep | app/handler.py:23 | a line, its terminator and the rest split into that line and the rest's lines |
| Summary.FirstBreakAt | app/handler.py:23 | the first break is at i when there is one at i and none before |
| Summary.TerminatedStart | app/handler.py:23 | written text starts with its first line, or with the terminator when that line is empty |
| Summary.SplitTerminated | app/handler.py:23 | `splitlines` of lines ended by `\n`, `\r\n` or `\r` gives the lines back |
| Summary.Blank | app/handler.py:23 | definition: `line.strip()` is empty, every character being Python whitespace |
| Summary.NonBlank | app/handler.py:23 | the kept lines are lines of the input, none of them blank |
| Summary.RowCount | app/handler.py:28 | definition: `max(0, len(lines) - 1)` over the non-blank lines |
| Summary.NonBlankAppend | app/handler.py:23 | filtering distributes over concatenation |
| Summary.NonBlankKeepsAll | app/handler.py:23 | non-blank lines are all kept, in order |
| Summary.NonBlankDropsAll | app/handler.py:23 | blank lines are all dropped |
| Summary.BlankBodyHasNoRows | app/handler.py:23-28 | an empty or all-whitespace body reports 0 rows |
| Summary.CountsDataRows | app/handler.py:23-28 | a header line and non-blank data lines report exactly the data lines |
| Summary.BlankLineIgnored | app/handler.py:23-28 | inserting a blank line anywhere leaves the count unchanged |
| Summary.AggPrefix | app/handler.py:6 | definition: the `AGG_PREFIX` variable when set, `agg/` otherwise |
| Summary.RemoveAll | app/handler.py:31 | removing occurrences never lengthens the key |
| Summary.RemoveAllUnchanged | app/handler.py:31 | `replace` changes nothing exactly when the pattern does not occur |
| Summary.RemoveAllSuffix | app/handler.py:31 | a trailing pattern with no earlier occurrence is removed and nothing else |
| Summary.RemoveAllSinglePass | app/handler.py:31 | the pass is single: deleting `raw/` from `raraw/w/` leaves `raw/` |
| Summary.OutKey | app/handler.py:31 | the summary key starts with the prefix, ends with `_summary.json`, and holds the cleaned key between them |
| Summary.OutKeyPlain | app/handler.py:31 | a key with neither `raw/` nor `.csv` is kept whole between prefix and suffix |
| Summary.PlainStemAppend | app/handler.py:31 | proof helper: stems with no slash and no dot joined have none |
| Summary.OutKeyOfUpload | app/handler.py:31 | `raw/<stem>.csv`, for a stem without slash or dot, is summarised at `<prefix><stem>_summary.json` |
| Summary.Handle | app/handler.py:8-46 | definition: the summary written (source bucket, key, row count), where it is written, and the status-200 response carrying it |
| Summary.HandleEchoesSource | app/handler.py:25-46 | status 200, the response body is the summary written, which names the source bucket and key, in the source bucket, under the prefix and with the `_summary.json` suffix |
| Summary.HandleCountsUpload | app/handler.py:21-29 | an upload of a header and non-blank data lines reports its data-line count |
| Pipeline.CsvLine | main.py:71-73 | definition: one record as `csv.writer` lays it out, fields separated by commas |
| Pipeline.CsvText | main.py:71-73 | definition: the file text, every record's line ended by `\r\n` |
| Pipeline.CsvLines | main.py:71-73 | one line per record |
| Pipeline.BreakFreeAppend | main.py:71-73 | proof helper: joining text without line breaks gives text without line breaks |
| Pipeline.CsvLineBreakFree | main.py:71-73 | a record of break-free fields is written as a single line |
| Pipeline.CsvLineNotBlank | main.py:71-73 | a record of two fields or more is written as a non-blank line |
| Pipeline.WrittenFileRowCount | app/handler.py:23-28 | a written file of a header and records of two fields or more, none with a line break, counts its data records |
| Pipeline.IsoDateBreakFree | main.py:84 | a `YYYY-MM-DD` date has no line break, slash or dot |
| Pipeline.IsoBreakFree | main.py:21 | a rendered timestamp has no line break when its date and offset have none |
| Pipeline.FieldsBreakFree | main.py:21 | a row with break-free parts renders to break-free fields |
| Pipeline.FixtureTextBreakFree | main.py:76-95 | the site, metric, zone, header names and fixture kinds hold no line break, slash or dot |
| Pipeline.WrittenRowsCount | main.py:68-73 | the text `write_csv` produces counts one row per generated row |
| Pipeline.FixtureStemPlain | main.py:84 | a fixture's stem has no slash and no dot |
| Pipeline.UploadSummary | app/handler.py:21-31 | a fixture uploaded as `raw/<name>` is reported with its row count, in the source bucket, at `<prefix><stem>_summary.json` |
| Pipeline.FallRowsBreakFree | main.py:59-64 | the fall-back fixture's rows hold no line break when the rendered readings hold none |
| Pipeline.RegularUploadSummary | main.py:83-86 | the regular fixture, uploaded, reports 96 rows at `<prefix>FR001_regular_2024-12-01_summary.json` |
| Pipeline.SpringUploadSummary | main.py:88-91 | the spring-forward fixture, uploaded, reports 96 rows at its summary key |
| Pipeline.FallUploadSummary | main.py:93-96 | the fall-back fixture, uploaded, reports 100 rows, the repeated hour counted twice, at its summary key |

## Left out

- Floating point: a reading is kept as `base + span * draw`, with the draw a real in
  [0, 1); the `f"{val:.3f}"` rendering is the parameter `fmt`.
- Generators.Magnitude: the value is an exact real, so the model could promise the
  open range `[base, base + span)`; only the closed range is stated, because the
  source's floating-point `base + span * random()` rounds to `base + span` for the
  largest draw below 1.
- The Mersenne Twister behind `random.seed(42)` and `random.random()`: the draws are
  the parameter `draw`, an unbounded stream, so no exact fixture value is modelled.
- Generators.GenRegularDay: the time-zone database is not modelled; the UTC offset
  suffix that `isoformat` appends at each local minute is the parameter `offset`, so
  the offsets of 2024-12-01 (`+01:00`) are not derived.
- `datetime.fromisoformat` validation: the date string is carried verbatim; an
  invalid date, which the source rejects with an exception, is not modelled as an
  error. The fixtures' own dates are proved well-formed.
- Timestamps are rendered for whole minutes of one day, as the walk only reaches
  those; a walk past midnight cannot occur since the step count keeps every step
  within the date.
- Fixtures.WriteCsv: directory creation, file opening failures, text encoding and
  `csv` quoting are not modelled; a file is the list of records written to it.
- Pipeline.CsvLine: fields are joined by commas without `csv` quoting, which leaves
  the count alone as long as no field holds a line break, the condition every lemma
  about counts requires.
- The final `print` of `main` and the handler's two log lines.
- The handler's S3 calls (`get_object`, `put_object`), the JSON encoding of the
  summary and of the response body, and the UTF-8 decoding with replacement: the
  body is taken as already decoded text and `Summary.Handle` returns the summary it
  would write and the response as values.
- The extraction of bucket and key from the event's first record, and the request
  id logged from the context.
