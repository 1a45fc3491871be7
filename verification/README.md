# Leeds weather sensors: simulation and per-sensor statistics

A Dafny model of the computational core of a small serverless application
that simulates Leeds weather sensors. Two HTTP handlers hold all of its logic:

- **LeedsWeatherSimulator** reads an optional `count` query parameter (default
  20 sensors, otherwise a positive decimal integer, else a 400 response) and
  returns one reading per sensor, sensor ids 1..N in order. Each reading has
  four integers, each drawn with `random.randint` from a fixed inclusive
  range: temperature 5..18 °C, wind 12..24 mph, humidity 30..60 %, CO2
  400..1600 ppm.
- **LeedsWeatherStats** takes a JSON body with a `readings` list. It rejects
  a body that is not JSON ("Invalid JSON.") and an absent, null or empty list
  ("No readings found."). Otherwise it groups the readings by `sensor_id` in
  one pass, keeping ids in order of first occurrence. For each group and each
  of the four fields it reports the minimum, the maximum and the mean, under
  the key `Sensor_<id>`.

Modules, one per component:

| file | module | contents |
|---|---|---|
| wrappers.dfy | `Wrappers` | `Option`, and `Result` (a payload or a 400 rejection with its text) |
| decimal.dfy | `Decimal` | ASCII digits, the value of a numeral (`int(...)`), canonical numerals (`str(...)`) |
| sequences.dfy | `Sequences` | a generic fact about splitting a sequence at its last element |
| readings.dfy | `Readings` | the `Reading` record, the four ranges, `WithinRanges` |
| count_param.dfy | `CountParam` | validation of `count`, plus the as-written check of the finding below |
| simulator.dfy | `Simulator` | `randint`, reading generation, the simulator handler |
| grouping.dfy | `Grouping` | reference grouping (`Select`, `DistinctIds`), the single-pass `GroupBySensor`, partition lemmas |
| statistics.dfy | `Statistics` | `Min`, `Max`, `Average`, `StatBlock`, per-sensor `SensorStats` |
| stats_endpoint.dfy | `StatsEndpoint` | the statistics handler, response keys, properties of the whole response |

Randomness is modelled as a nondeterministic choice: `RandInt` may return
any integer of its inclusive range, so every property proved about the
simulator holds for every possible sequence of draws.

## Model

| member | source | states |
|---|---|---|
| `Readings.DeclaredRanges` | function_app.py:19-22 | the four inclusive ranges are temperature 5..18, wind 12..24, humidity 30..60 and CO2 400..1600, each non-empty so that every draw is defined |
| `Simulator.RandInt` | function_app.py:34-37 | a draw from `randint(lo, hi)` lies in the inclusive range, both ends allowed |
| `Simulator.GenerateReading` | function_app.py:30-38 | a reading carries the sensor's own id and all four fields lie inside their declared ranges |
| `Simulator.SimulateWeatherSensors` | function_app.py:41-44 | exactly N readings (none for N <= 0); the reading at index i belongs to sensor i + 1; every field in range |
| `Simulator.SimulationIdsDenseAscending` | function_app.py:41-44 | the sensor ids of a simulation are strictly ascending and are exactly 1..N |
| `Simulator.LeedsWeatherSimulator` | function_app.py:58-85 | the handler rejects exactly when the count is rejected; otherwise city "Leeds", a count >= 1, and a simulation of that many sensors |
| `CountParam.ParseCount` | function_app.py:60-71 | an accepted count is always at least 1; every rejection carries the handler's 400 text |
| `CountParam.ParseCountAcceptsIff` | function_app.py:63-69 | a non-empty parameter is accepted iff it is all digits with some digit other than '0', and the count is its decimal value |
| `CountParam.ParseCountRoundTrip` | function_app.py:64-69 | every positive count written as its canonical numeral is parsed back to itself |
| `CountParam.ParseCountLeadingZero` | function_app.py:64-69 | a leading '0' never changes the outcome for a non-empty parameter ("05" is 5, "000" is rejected like "0") |
| `CountParam.ParseCountExamples` | function_app.py:60-71 | absent or empty gives 20; "5" and "05" give 5; "abc", "0", "000" and "-3" are rejected |
| `CountParam.ParseCountAsWritten` | function_app.py:63-69 | the check as written: a count it accepts is at least 1 (its third outcome is the 500 of the finding) |
| `CountParam.NonDecimalDigitCountIsInternalError` | function_app.py:64 | "²", "₂" and "①" pass `isdigit` but not `int`, giving a 500, while the corrected check rejects them with 400 |
| `CountParam.InternalErrorIff` | function_app.py:63-71 | as written, the handler fails internally exactly on a non-empty parameter made of ASCII digits and characters that are digits but not decimal digits, with at least one of the latter; the corrected check rejects each such parameter with the 400 text |
| `CountParam.AsWrittenAgreesWithoutNonDecimalDigits` | function_app.py:63-71 | without such non-decimal digits, the as-written check never fails internally and accepts the same counts as `ParseCount` |
| `Decimal.ValueOfNatToString` | function_app.py:69 | reading back the canonical numeral of n gives n |
| `Decimal.NatToStringOfValue` | function_app.py:64-69 | the other direction: every digit string without a leading zero is the canonical numeral of its value, so `int(...)` and `str(...)` are inverse on canonical numerals |
| `Decimal.LeadingZeroIgnored` | function_app.py:69 | a leading zero does not change the value of a numeral |
| `Decimal.ValueZeroIffAllZeros` | function_app.py:64 | a numeral is worth 0 exactly when every digit is '0' |
| `Decimal.NatToStringInjective` | function_app.py:134 | different natural numbers are printed as different numerals |
| `Decimal.IntToString` | function_app.py:134 | `str(sid)` is never empty and starts with '-' exactly for a negative id |
| `Decimal.IntToStringReadBack` | function_app.py:134 | the id is read back from `str(sid)`: its digits denote the id, or the magnitude after the '-' of a negative id |
| `Decimal.IntToStringInjective` | function_app.py:134 | different integers are printed as different numerals |
| `Grouping.Select` | function_app.py:122-124 | a sensor's group is non-empty exactly when that sensor id occurs in the input |
| `Grouping.SelectMembers` | function_app.py:122-124 | a reading is in the group of `id` exactly when it is one of the input's readings and carries `id` |
| `Grouping.DistinctIdsCount` | function_app.py:121-128 | there are exactly as many keys as distinct sensor ids |
| `Grouping.DistinctIds` | function_app.py:121-128 | the group keys are exactly the ids that occur, none repeated |
| `Grouping.GroupBySensor` | function_app.py:121-124 | the single `setdefault(...).append(...)` pass builds exactly the reference keys and groups |
| `Grouping.ReadingInItsOwnGroup` | function_app.py:122-124 | every reading is in the group keyed by its own id and in no other |
| `Grouping.GroupingPartitions` | function_app.py:121-128 | the groups, laid end to end in key order, are a permutation of the input |
| `Grouping.GroupSizesSum` | function_app.py:121-128 | the group sizes add up to the number of readings |
| `Grouping.DistinctIdsFirstOccurrenceOrder` | function_app.py:121-128 | keys are in first-occurrence order: before any occurrence of a later key, an earlier key has already occurred |
| `Statistics.Min` | function_app.py:135-138 | `min` of a non-empty list occurs in the list and bounds every element from below |
| `Statistics.Max` | function_app.py:135-138 | `max` of a non-empty list occurs in the list and bounds every element from above |
| `Statistics.Average` | function_app.py:117-118 | the average of a non-empty list, taken once per element, adds up to its sum; an empty list averages to 0 |
| `Statistics.SumBounds` | function_app.py:117-118 | n values all within [lo, hi] sum to between n * lo and n * hi |
| `Statistics.FieldStats` | function_app.py:135 | for a non-empty list: min and max occur in the list and bound every value; the average is the mean; min <= average <= max |
| `Statistics.SingleValueStats` | function_app.py:135 | a single value v summarises to min v, max v, average v |
| `Statistics.TwoValuesExample` | function_app.py:117-118 | values 10 and 20 summarise to min 10, max 20, average 15.0 |
| `Statistics.FieldValues` | function_app.py:129-132 | the field projection keeps the group's length and order |
| `Statistics.FieldValuesMembers` | function_app.py:129-132 | every reading of the group contributes its value to the field's list, and every value in the list comes from a reading of the group |
| `Statistics.StatsFor` | function_app.py:129-138 | each of the four blocks summarises its field's values over the group, as `FieldStats` states |
| `Statistics.SingleReadingStats` | function_app.py:129-138 | a sensor with one reading gets min == max == average == that reading's value, for every field |
| `StatsEndpoint.SensorLabel` | function_app.py:134 | every key is the prefix `Sensor_` followed by a non-empty numeral |
| `StatsEndpoint.SensorLabelReadBack` | function_app.py:134 | the sensor id is read back from its key |
| `StatsEndpoint.SensorLabelInjective` | function_app.py:134 | different sensor ids get different `Sensor_<id>` keys |
| `StatsEndpoint.Entries` | function_app.py:127-139 | one entry per listed sensor id |
| `StatsEndpoint.EntriesAt` | function_app.py:127-139 | entry j holds the j-th listed id and the statistics of exactly that id's group |
| `StatsEndpoint.Aggregate` | function_app.py:127-139 | the response has as many entries as there are distinct sensor ids in the input |
| `StatsEndpoint.AggregateIds` | function_app.py:127-134 | entry j of the response belongs to the j-th distinct id in order of first occurrence |
| `StatsEndpoint.SummariseReadings` | function_app.py:121-139 | the grouping pass followed by the per-sensor loop produces exactly the reference response: one entry per distinct id, in first-occurrence order, each the statistics of that id's readings |
| `StatsEndpoint.LeedsWeatherStats` | function_app.py:107-139 | "Invalid JSON." for a non-JSON body; "No readings found." for an absent or empty list; otherwise the per-sensor response built from the single-pass grouping |
| `StatsEndpoint.AggregateOneEntryPerSensor` | function_app.py:127-139 | an id occurs in the input iff its key is in the response, and no key appears twice |
| `StatsEndpoint.AggregateStatsBounds` | function_app.py:127-138 | entry j belongs to the j-th distinct id; for each field its min and max are values of that sensor's readings, every such reading lies between them, and min <= average <= max |
| `StatsEndpoint.EntrySummarisesSensor` | function_app.py:129-138 | the entry of one sensor summarises each field over exactly the readings carrying that sensor id |
| `StatsEndpoint.SimulationStats` | function_app.py:127-139 | fed a fresh simulation of N sensors, the response has N entries, the j-th for sensor j + 1 (key `Sensor_<j+1>`), each block's min, max and average equal to that sensor's one reading |

## Left out

- Azure Functions plumbing is not modelled: the app object, the decorators, the request and response objects, and logging. The two handlers return a `Result` instead: `Ok` for status 200, `Rejected` with the response text for status 400.
- The catch-all 500 path of the simulator handler is not modelled. The model has no internal failure, except `int` refusing digits that are not decimal digits (see Findings).
- JSON decoding and encoding are not modelled. A body that is not JSON is `InvalidJson`. The `readings` key is an `Option` (`None` when absent or null). A JSON number or string id, a reading with a missing key (an uncaught `KeyError`), and a body that is not an object are outside the model.
- The four measured fields are integers. The statistics endpoint accepts any JSON number, so float readings get a minimum, a maximum and a mean in the source; the model cannot express them.
- A `readings` value that is not a list is not modelled. A falsy non-list (`false`, `0`, `""`, `{}`) gets the 400 "No readings found." at function_app.py:113. Other non-list values fail while being iterated.
- Sensor ids are integers. In Python, ids of other types such as `1.0` or `"1"` could merge groups or collide on the same `Sensor_1` key. With integer ids, keys are provably distinct.
- `timestamp_utc` and `time_ms` are not modelled because they come from the wall clock. The simulator's `SimulationReport` leaves them out.
- The entropy behind `random.randint` and its uniform distribution are not modelled. Only the inclusive range of each draw is.
- `FieldStats`: the average is the exact mean over the reals. Float division and `round(..., 2)` are not modelled.
- `ParseCount`: only ASCII digits are modelled. Python's `isdigit` and `int` also accept other Unicode decimal digits (for example Arabic-Indic digits), which the model rejects. Python 3.11 and later also refuse to convert numerals longer than 4300 digits, which gives a 500. That is not modelled either.
- `ParseCountAsWritten`: the same restriction to ASCII digits applies. The source accepts a numeral in another script's decimal digits ("٥" is 5), where the model answers `BadRequest`. The source fails internally on such digits mixed with non-decimal digits ("٥²"), where the model also answers `BadRequest`. Among characters outside the Unicode decimal digits, the 500 outcome is exact (`CountParam.InternalErrorIff`).
- The `else 0` branch of `average` is unreachable in the handler: `FieldStats` requires a non-empty list, and every group is non-empty (`Grouping.Select`, `Grouping.DistinctIds`). The branch is kept in `Statistics.Average`.
- A row adapter between readings and stored rows, a timer trigger, database bindings and change-feed trigger do not exist in this code, so they are not modelled.
- The scalability scripts (`run_scalability_test.py`, `run_task1_scalability.py`, `run_task2_scalability.py`, `run_task3_scalability.py`) are not modelled. They are HTTP clients and plotting code with no core logic.

## Findings

| source | as written | input that shows it | evidently intended | confidence | as-written member | corrected member |
|---|---|---|---|---|---|---|
| function_app.py:64 | `count_param.isdigit()` guards `int(count_param)`, but `isdigit` also accepts characters that are digits but not decimal digits (superscripts, subscripts, circled digits and others: 128 characters in Unicode 15.0), which `int` cannot convert; the `ValueError` reaches the catch-all and the caller gets a 500 | `?count=²` or `?count=₂` | a 400 "Invalid 'count' parameter" like any other non-numeral | high (Python's documented `isdigit`/`int` behaviour), not executed | `CountParam.NonDecimalDigitCountIsInternalError` | `CountParam.ParseCountAcceptsIff` |
