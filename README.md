# Whiteface forecast and conditions pipeline, modelled in Dafny

This project models the per-point extraction pipeline of the Whiteface Mountain
data scripts. Four GFS scripts download one GRIB2 file per forecast step. They
find the grid cell nearest to the summit (44.3659 N, 73.9023 W) and read a
field there:

- snow depth, with a running positive accumulation (`Whiteface_Snow_ACC_ANL.py`);
- snow depth, with the hourly snowfall series (`Whiteface_Snow_rate.py`);
- the 975 mb temperature, in Fahrenheit (`Whiteface_TMP_975.py`);
- the precipitation type (`Whiteface_precip_type.py`).

Each script collects a forecast-hour list and a value list, in step order, and
writes them as JSON. The conditions scraper (`Whiteface.py`) processes the
lines read from the resort's conditions page. It deduplicates them, sorts them
into date, temperature, lifts and trails, applies two fallbacks and parses the
"X of Y" counts.

Modules:

- Common: Option/Result, first-match and filter functions.
- Grid: n-dimensional arrays as a shape plus row-major data.
  - `np.squeeze` and indexing, with an error for the wrong number of indices
    or an index out of range.
  - Longitude normalisation.
  - Nearest-cell search on 1-D axes and on a 2-D mesh.
- Datasets: a decoded GRIB file.
  - Data variables, the latitude and longitude coordinates, and
    `DownloadRaised`/`NoFile`/`Unreadable`/`Decoded` for what one step's
    download and decoding produced.
  - Variable selection and the unit conversions.
- Series: the forecast schedule and the best-effort step loop shared by the
  four scripts.
  - A step can append, be skipped, or crash the script. A step that raises
    between the two appends leaves only its hour behind.
  - The JSON is written only when some step appended.
- Episodes: the specification of the snow accumulation. It is the rise of the
  depth since the start of the current strictly increasing run.
- SnowAccumulation, SnowRate, Temperature975, PrecipType: one module
  per GFS script.
- Patterns: the regular expressions of the scraper as greedy scanners.
  Completeness lemmas show that each scanner finds every match the pattern
  allows.
- Conditions: the scraper's loops.

Downloads, file and JSON I/O, and GRIB decoding are parameters. A script run
takes a function from forecast hour to `Grib`. `xr.merge` is a function to
`Option<Dataset>`. `strptime` under the two date formats is a predicate
`isDate`.

Where the documentation and the code disagree, the model follows the code:

- The two snow scripts' accumulation loops are presented as different policies.
  `compute_positive_accum` keeps an extra `accumulating` flag, and its reset on
  a new run (line 129) never changes the total. Both loops emit exactly
  `Episode(d, i) = d[i] - d[RunStart(d, i)]`. `SnowRate.LoopsAgree` states that
  the two loops agree on every input.
- The longitude normalisation `lons > 180 -> lons - 360` maps [0, 360) onto
  (-180, 180]. 180 itself stays 180, so the range is not [-180, 180).
- `download_file` runs outside the `try` in all four GFS scripts. A request
  that raises (a connection error, a failed write) therefore ends the whole
  script, and no JSON is written.
- In the snow-depth and temperature scripts, `xr.open_dataset` is also outside
  the `try`, so an unreadable file ends the script too. The precipitation
  script opens both files inside its `try`, so the same failure only skips
  that step.
- The snow-rate script reads `sde` without squeezing it. When the field has
  more than two axes, indexing by the cell gives an array. If that array has
  other than one element, `max(array, 0)` raises after the hour has already
  been appended. If it has exactly one, `max` keeps it as an array; a rise
  next to it makes the running total an array, and `{snow:.2f}` in the
  printout then raises, so no JSON is written (see Findings).

## Model

| member | source | states |
|---|---|---|
| `Grid.Squeeze` | Whiteface/Whiteface_Snow_ACC_ANL.py:81 | np.squeeze keeps the data and the size, and its shape is the input shape with exactly the length-1 axes removed, in order |
| `Grid.DropUnitAxesKeepsOrder` | Whiteface/Whiteface_Snow_ACC_ANL.py:81 | the squeezed shape is the filter of the shape by "length is not 1", so the remaining axes keep their order |
| `Grid.Element` | Whiteface/Whiteface_TMP_975.py:94 | indexing gives a value exactly when the index count equals the rank and each index is in range; the value is the row-major element |
| `Grid.ValueAtCell` | Whiteface/Whiteface_Snow_rate.py:81 | `arr[lat_idx, lon_idx]` gives one number exactly for a 2-D array with the cell in range, namely element `lat_idx*cols+lon_idx` |
| `Grid.IndexCell` | Whiteface/Whiteface_Snow_rate.py:81 | `arr[lat_idx, lon_idx]` without squeezing: one element of a 2-D array (the cell in range), the row-major block over the trailing axes of a higher-rank array (both indices in range), IndexError otherwise |
| `Grid.AsNumber` | Whiteface/Whiteface_precip_type.py:78 | an indexed value can be used as one number exactly when it is a scalar or a one-element array, and then it is that element |
| `Grid.NormalizeLongitude` | Whiteface/Whiteface_Snow_ACC_ANL.py:70 | a longitude above 180 becomes x - 360; any other longitude is kept |
| `Grid.NormalizeLongitudeRange` | Whiteface/Whiteface_Snow_ACC_ANL.py:70 | on [0, 360) the result lies in (-180, 180], and is unchanged exactly when the input is at most 180 |
| `Grid.NormalizeLongitudes` | Whiteface/Whiteface_TMP_975.py:74 | np.where applies the normalisation elementwise and keeps the shape |
| `Grid.ArgMin` | Whiteface/Whiteface_Snow_ACC_ANL.py:76 | argmin returns the first index of a minimum of a non-empty array |
| `Grid.AbsDiffs` | Whiteface/Whiteface_Snow_ACC_ANL.py:76 | `np.abs(lats - lat)` elementwise, same length |
| `Grid.SquaredDistance` | Whiteface/Whiteface_Snow_ACC_ANL.py:73 | the squared distance is never negative and is 0 at the point itself |
| `Grid.SquaredDistances` | Whiteface/Whiteface_Snow_ACC_ANL.py:73 | `(lats - lat)**2 + (lons - lon)**2` elementwise over the mesh, same length |
| `Grid.UnravelIndex` | Whiteface/Whiteface_Snow_ACC_ANL.py:74 | `np.unravel_index` of a flat index below rows*cols gives an in-range cell whose row-major offset is that index |
| `Grid.NearestOnAxes` | Whiteface/Whiteface_Snow_ACC_ANL.py:75-77 | on 1-D axes each index is the first minimum of the absolute differences; an empty axis is an error |
| `Grid.NearestOnMesh` | Whiteface/Whiteface_Snow_ACC_ANL.py:72-74 | on a 2-D mesh the unravelled cell is in range and is the first minimum of the squared distances; differing shapes or an empty mesh is an error |
| `Grid.NearestCell` | Whiteface/Whiteface_precip_type.py:62-73 | dispatch on the ranks of latitude and longitude: 2-D/2-D mesh, 1-D/1-D axes on the normalised longitudes, any other combination raises the dimensions error |
| `Datasets.Lookup` | Whiteface/Whiteface_TMP_975.py:77 | `ds[name]` exists exactly when the dataset has that variable, and is that variable's array |
| `Datasets.SelectVariable` | Whiteface/Whiteface_Snow_ACC_ANL.py:59-64 | an error exactly for no variables; otherwise a variable name, a matching one whenever any matches, and the first name when none matches |
| `Datasets.SnodImpliesSno` | Whiteface/Whiteface_Snow_ACC_ANL.py:62 | every name containing "snod" already contains "sno", so the third test never decides |
| `Datasets.IsSnowName` | Whiteface/Whiteface_Snow_ACC_ANL.py:62 | a name is accepted exactly when its lower-case form contains "sno" or "sde" |
| `Datasets.IsTemperatureName` | Whiteface/Whiteface_TMP_975.py:66 | every name accepted as a temperature has a 't' or 'T' in it |
| `Datasets.MetresToInches` | Whiteface/Whiteface_Snow_ACC_ANL.py:90 | dividing the result by 39.3701 gives the metres back; the sign is kept |
| `Datasets.MetresToInchesFacts` | Whiteface/Whiteface_Snow_rate.py:81 | one metre is 39.3701 inches; the conversion is additive and strictly increasing |
| `Datasets.KelvinToFahrenheit` | Whiteface/Whiteface_TMP_975.py:116-117 | Kelvin to Fahrenheit is inverted by Fahrenheit to Kelvin |
| `Datasets.KelvinToFahrenheitFacts` | Whiteface/Whiteface_TMP_975.py:116-117 | 273.15 K is 32 F, and the conversion is strictly increasing (both directions) |
| `Datasets.PerHour` | Whiteface/Whiteface_precip_type.py:75-76 | scaling by 3600 keeps positivity and zero |
| `Datasets.ClampToZero` | Whiteface/Whiteface_Snow_ACC_ANL.py:107 | max(depth, 0) is never negative and keeps every non-negative depth |
| `Series.ForecastSteps` | Whiteface/Whiteface_Snow_ACC_ANL.py:31 | 65 steps from 0 to 384, strictly increasing, and exactly the multiples of 6 in [0, 384] |
| `Series.CycleHour` | Whiteface/Whiteface_Snow_ACC_ANL.py:28 | the cycle hour is a multiple of 6 at most 5 hours before the given hour, one of 0, 6, 12, 18 |
| `Series.CycleHourString` | Whiteface/Whiteface_TMP_975.py:28 | the zero-filled string is "00", "06", "12" or "18" and reads back as the cycle hour |
| `Series.RunLength` | Whiteface/Whiteface_Snow_ACC_ANL.py:98-102 | the steps processed before the first crash: none of them crashed, and the step at the returned index did |
| `Series.BuildSeries` | Whiteface/Whiteface_Snow_ACC_ANL.py:98-112 | the loop crashes exactly when some step crashes; the hours are the steps before the crash that appended their hour, in order; the values are the values those steps appended |
| `Series.KeptMembers` | Whiteface/Whiteface_Snow_rate.py:86-93 | an hour is kept exactly when it is a step and that step appended its hour (with or without a value) |
| `Series.KeptCount` | Whiteface/Whiteface_Snow_rate.py:86-93 | kept plus missed steps is all steps: no placeholder is inserted for a missing step |
| `Series.KeptIncreasing` | Whiteface/Whiteface_precip_type.py:88-99 | kept hours inherit strict increase from the steps |
| `Series.Values` | Whiteface/Whiteface_Snow_rate.py:92-93 | a run never has more values than hours |
| `Series.ValuesAligned` | Whiteface/Whiteface_Snow_rate.py:92-93 | values and hours have the same length exactly when no step appended its hour alone; then each value is the one its hour's step produced |
| `Series.ValuesMembers` | Whiteface/Whiteface_Snow_rate.py:93 | every value of a run was appended by one of its steps |
| `Series.ValuesSatisfy` | Whiteface/Whiteface_Snow_rate.py:93 | a property of every value a step can append holds of every value of a run |
| `Series.ForecastHoursIncreasing` | Whiteface/Whiteface_TMP_975.py:107-119 | the hours of any run prefix are strictly increasing multiples of 6 in [0, 384] |
| `Series.RunSchedule` | Whiteface/Whiteface_TMP_975.py:107-119 | the step loop over the 65 forecast steps: crashes exactly when some step crashes, keeps the hours and values appended before it, never more values than hours, and its hours are strictly increasing multiples of 6 in [0, 384] |
| `Series.ScheduleAligned` | Whiteface/Whiteface_TMP_975.py:118-119 | when no step can append its hour alone, each run's values line up one-to-one with its hours |
| `Episodes.RunStart` | Whiteface/Whiteface_Snow_ACC_ANL.py:126-134 | the start of the strictly increasing run ending at i: every step after it rises, and it is 0 or follows a non-rise |
| `Episodes.RunRises` | Whiteface/Whiteface_Snow_ACC_ANL.py:127-131 | along a strictly increasing run the depth rises strictly |
| `Episodes.EpisodeStep` | Whiteface/Whiteface_Snow_ACC_ANL.py:120-135 | the accumulation is never negative, is 0 at the first step and after a non-rise, and otherwise adds the rise to the previous value, strictly growing |
| `Episodes.EpisodeMonotoneInRun` | Whiteface/Whiteface_Snow_ACC_ANL.py:127-131 | within one run the accumulation never decreases |
| `Episodes.EpisodeExample` | Whiteface/Whiteface_Snow_rate.py:103-110 | depths 10, 10, 12, 11, 13, 14 give 0, 0, 2, 0, 2, 3 |
| `SnowAccumulation.FieldAt` | Whiteface/Whiteface_Snow_ACC_ANL.py:81-89 | the squeezed field gives a number at the cell for 2-D (cell in range), 3-D (first slice, cell in range) and scalars, and an error for any other rank |
| `SnowAccumulation.SnowDepthAt` | Whiteface/Whiteface_Snow_ACC_ANL.py:66-90 | the depth in inches is the field read at the nearest cell times 39.3701; a grid, lookup or field failure is an error |
| `SnowAccumulation.SnowDepthStep` | Whiteface/Whiteface_Snow_ACC_ANL.py:99-112 | a raising download or an unreadable file crashes, no file skips, a failed selection or extraction skips, a success appends max(depth, 0); the hour never goes alone |
| `SnowAccumulation.RunAligned` | Whiteface/Whiteface_Snow_ACC_ANL.py:106-107 | in every run the depths line up with the hours, each the value of its hour's step |
| `SnowAccumulation.ComputePositiveAccum` | Whiteface/Whiteface_Snow_ACC_ANL.py:114-136 | the running totals equal the rise since the current run began, at every index |
| `SnowAccumulation.SnowAccumulationRun` | Whiteface/Whiteface_Snow_ACC_ANL.py:95-149 | aborts exactly on a crash; hours are the appended steps in increasing order; depths are non-negative and line up with hours; the JSON carries the accumulation of the depths |
| `SnowRate.SnowDepthAt` | Whiteface/Whiteface_Snow_rate.py:66-81 | the unsqueezed `sde` field indexed at the nearest cell: an error exactly for a grid failure, a missing `sde` or IndexError; one depth (the element in inches) exactly when the result is a scalar or a one-element array, held as an array exactly in the second case; otherwise an array of that many depths, never one |
| `SnowRate.MaxWithZero` | Whiteface/Whiteface_Snow_rate.py:93 | `max(depth, 0)` has the value of the depth clamped at zero, and is an array exactly when the depth is an array and not negative |
| `SnowRate.SnowDepthStep` | Whiteface/Whiteface_Snow_rate.py:86-97 | a raising download or an unreadable file crashes, no file or a failed extraction skips, an array of depths appends the hour alone, one depth appends the hour and `max(depth, 0)`, still an array when the depth was a one-element array and not negative |
| `SnowRate.TwoLayerDepthAppendsHourOnly` | Whiteface/Whiteface_Snow_rate.py:81-93 | on a 1 x 1 grid whose `sde` has a trailing axis of 2, the step appends its hour and then raises |
| `SnowRate.TwoLayerRunMisaligned` | Whiteface/Whiteface_Snow_rate.py:86-93 | a run over that grid processes all 65 steps and ends with fewer depths than hours |
| `SnowRate.OneLayerDepthStoresArray` | Whiteface/Whiteface_Snow_rate.py:81-93 | on a 1 x 1 grid whose `sde` has a trailing axis of 1, a non-negative depth is stored as a one-element array |
| `SnowRate.RisingOneLayerFirstSteps` | Whiteface/Whiteface_Snow_rate.py:86-93 | a run that decodes 0.1 m at hour 0 and 0.2 m at hour 6 on that grid stores both depths as arrays, in that order |
| `SnowRate.RisingOneLayerRunLength` | Whiteface/Whiteface_Snow_rate.py:86-89 | that run processes all 65 steps |
| `SnowRate.RisingOneLayerRaisesAtPrint` | Whiteface/Whiteface_Snow_rate.py:86-115 | that run's depths rise next to an array, the condition under which the printout raises |
| `SnowRate.SnowDepthStepCorrected` | Whiteface/Whiteface_Snow_rate.py:91-93 | the corrected step never appends an hour alone and stores only non-negative numbers: it skips where the written step appends the hour alone, stores the written step's value as a number where it appends, and otherwise agrees with it |
| `SnowRate.RunDepthsClamped` | Whiteface/Whiteface_Snow_rate.py:93 | every depth of a run is non-negative |
| `SnowRate.RunAlignedIff` | Whiteface/Whiteface_Snow_rate.py:92-93 | depths and hours have the same length exactly when no processed step appended its hour alone |
| `SnowRate.CorrectedRunAligned` | Whiteface/Whiteface_Snow_rate.py:92-93 | with the corrected step, every run's depths line up with its hours, are non-negative numbers, and no rise involves an array |
| `SnowRate.HeldAsArrayCause` | Whiteface/Whiteface_Snow_rate.py:103-110 | the running total is an array only if some earlier rise of the series involved a depth held as an array |
| `SnowRate.HeldAsArrayIff` | Whiteface/Whiteface_Snow_rate.py:103-110 | some hourly total is an array exactly when some rise involves a depth held as an array |
| `SnowRate.HourlyRecurrenceRise` | Whiteface/Whiteface_Snow_rate.py:103-110 | resetting to 0 on a non-rise and adding the increment on a rise yields the rise since the current run began |
| `SnowRate.HourlyRecurrenceArray` | Whiteface/Whiteface_Snow_rate.py:103-110 | the total the loop keeps is an array exactly when its run has risen next to a depth held as an array |
| `SnowRate.HourlySnow` | Whiteface/Whiteface_Snow_rate.py:100-110 | one entry per depth; each is the rise since the current run began, and is an array exactly when its run has risen next to a depth held as one |
| `SnowRate.PrintSeries` | Whiteface/Whiteface_Snow_rate.py:113-115 | the printout over `zip(forecast_hours, hourly_snow)` raises exactly when some zipped entry is an array |
| `SnowRate.PrintRaisesIff` | Whiteface/Whiteface_Snow_rate.py:100-115 | with at least as many hours as depths, the printout raises exactly when some rise involves a depth held as an array |
| `SnowRate.LoopsAgree` | Whiteface/Whiteface_Snow_rate.py:103-110 | the hourly-snow loop and compute_positive_accum emit the same values on every input |
| `SnowRate.Report` | Whiteface/Whiteface_Snow_rate.py:100-135 | after the step loop: the script ends in the printout exactly when a rise involves an array; otherwise the hourly series is the accumulation of the depths, all numbers, and the JSON is written exactly when both lists are non-empty |
| `SnowRate.SnowRateRun` | Whiteface/Whiteface_Snow_rate.py:86-135 | aborts exactly on a crash in the step loop or a rise next to an array; the hours and depths are those the processed steps appended; hours increase; depths are non-negative, never more than the hours, and equal in number exactly when no step appended its hour alone; otherwise the hourly series is the accumulation of the depths; the JSON is written exactly when it did not abort and both lists are non-empty |
| `SnowRate.SnowRateRunCorrected` | Whiteface/Whiteface_Snow_rate.py:86-135 | the same script with the corrected step: aborts exactly on a crash in the step loop; depths line up with hours, each the number its hour's step stored |
| `Temperature975.FindTemperatureVariable` | Whiteface/Whiteface_TMP_975.py:62-68 | an error exactly for no variables; the first temperature-like name whenever one exists (no earlier name passes the test), else the first name |
| `Temperature975.AxesFieldAt` | Whiteface/Whiteface_TMP_975.py:90-97 | on 1-D axes: a 2-D field at the cell, a 3-D field's first slice, a 1-D field at the latitude index; anything else raises |
| `Temperature975.VarAtLocation` | Whiteface/Whiteface_TMP_975.py:70-99 | on a 2-D grid only a 2-D field yields a number; on 1-D axes the field is read as AxesFieldAt says; grid and lookup errors propagate |
| `Temperature975.TemperatureStep` | Whiteface/Whiteface_TMP_975.py:107-124 | no file skips, a raising download or an unreadable file crashes, and an appended value converts back to the Kelvin read at the nearest cell |
| `Temperature975.RunAligned` | Whiteface/Whiteface_TMP_975.py:118-119 | in every run the temperatures line up with the hours, each the value of its hour's step |
| `Temperature975.TemperatureRun` | Whiteface/Whiteface_TMP_975.py:104-139 | aborts exactly on a crash; hours increase; each temperature is the appended value of its hour's step |
| `PrecipType.PrecipKind.Label` | Whiteface/Whiteface_precip_type.py:78-83 | the label is one of "snow", "rain", "none" |
| `PrecipType.LabelInjective` | Whiteface/Whiteface_precip_type.py:78-83 | the three labels are distinct |
| `PrecipType.Classify` | Whiteface/Whiteface_precip_type.py:78-83 | snow exactly when csnow > 0; rain exactly when csnow <= 0 and prate > 0; none otherwise |
| `PrecipType.ClassifyScaleFree` | Whiteface/Whiteface_precip_type.py:75-76 | scaling both fields by the same positive factor does not change the class |
| `PrecipType.ClassifyExamples` | Whiteface/Whiteface_precip_type.py:78-83 | rain, snow, none and snow-over-rain on sample values |
| `PrecipType.CsnowAt` | Whiteface/Whiteface_precip_type.py:75 | 0 when the dataset has no `csnow`; otherwise the value indexed at the cell when it is one number (a scalar or a one-element array), and nothing when indexing raises or gives any other array |
| `PrecipType.PrecipTypeAt` | Whiteface/Whiteface_precip_type.py:61-83 | a grid error propagates; a class exactly when csnow (0 if absent) reads as one number, prate exists and is indexable, and prate reads as one number whenever csnow is not positive; snow exactly when csnow > 0, otherwise Classify of the two raw values; a missing csnow never gives snow |
| `PrecipType.PrecipStep` | Whiteface/Whiteface_precip_type.py:88-107 | the script ends exactly when either download raises; otherwise a step appends exactly when both files decoded, merged and classified, and never appends its hour alone |
| `PrecipType.RunAligned` | Whiteface/Whiteface_precip_type.py:98-99 | in every run the classes line up with the hours, each the value of its hour's step |
| `PrecipType.PrecipTypeRun` | Whiteface/Whiteface_precip_type.py:88-128 | aborts exactly when a download raises; hours are the appended steps before that, increasing; each type is its hour's step's label; the JSON is written exactly when it did not abort and some hour was kept |
| `Patterns.SkipWhile` | Whiteface/Whiteface.py:101 | a greedy run ends at the first character outside the class |
| `Patterns.MentionsTemperature` | Whiteface/Whiteface.py:73 | a line the temperature search accepts contains a digit and an F or f |
| `Patterns.MentionsTemperatureNonEmpty` | Whiteface/Whiteface.py:73 | an empty line never matches the temperature pattern |
| `Patterns.TemperatureComplete` | Whiteface/Whiteface.py:73 | every digits, spaces, optional degree sign, spaces, F/f in a line is found by the scan |
| `Patterns.NoDigitNoTemperature` | Whiteface/Whiteface.py:73 | a line without a digit never matches the temperature pattern |
| `Patterns.TemperatureExamples` | Whiteface/Whiteface.py:72-73 | "25°F" and "Base 18 F" match the temperature pattern |
| `Patterns.MatchCounts` | Whiteface/Whiteface.py:78 | a match is digits, spaces, "of", spaces, digits starting at the given index and not followed by a digit |
| `Patterns.MatchCountsExact` | Whiteface/Whiteface.py:78 | any maximal count placed at an index is exactly what the scan returns there |
| `Patterns.StartsWithCount` | Whiteface/Whiteface.py:78 | a line taken as a count starts with a digit and has an "of" after it |
| `Patterns.StartsWithCountComplete` | Whiteface/Whiteface.py:78 | a count at the head of a line is found however the line continues |
| `Patterns.DigitsValue` | Whiteface/Whiteface.py:104 | int() of n decimal digits is below 10^n |
| `Patterns.LeadingZero` | Whiteface/Whiteface.py:104 | a leading zero does not change the value int() reads |
| `Patterns.NatToString` | Whiteface/Whiteface.py:104 | the decimal string of n is a non-empty string of digits that int() reads back as n |
| `Patterns.FullMatch` | Whiteface/Whiteface.py:101 | a full match is leading spaces, a count, trailing spaces and nothing else |
| `Patterns.FullMatchComplete` | Whiteface/Whiteface.py:101 | every line made of spaces, a count and spaces is matched with exactly those pieces |
| `Patterns.ParseOfPair` | Whiteface/Whiteface.py:100-104 | a result exactly when the whole line matches, carrying the raw line |
| `Patterns.ParseOfPairComplete` | Whiteface/Whiteface.py:100-104 | every spaces/digits/spaces/"of"/spaces/digits/spaces line parses to its two numbers |
| `Patterns.ParseOfPairRoundTrip` | Whiteface/Whiteface.py:100-104 | parsing "X of Y" written from two numbers gives them back |
| `Patterns.CountWithSuffixDoesNotParse` | Whiteface/Whiteface.py:78-83 | "2 of 11 lifts" is taken as a count line but does not parse |
| `Patterns.MonthExampleDate` | Whiteface/Whiteface.py:89 | "Nov 25 2025" mentions a month |
| `Patterns.MonthExampleFullName` | Whiteface/Whiteface.py:89 | "Updated DECEMBER 1" mentions a month: the pattern ignores case and accepts letters after the abbreviation |
| `Patterns.MonthNeedsWordBoundary` | Whiteface/Whiteface.py:89 | "Nov25" has no word boundary after the month, so no month starts there |
| `Patterns.MentionsMonth` | Whiteface/Whiteface.py:89 | a line the month search accepts holds one of the twelve abbreviations, in any case |
| `Patterns.MonthComplete` | Whiteface/Whiteface.py:89 | every month word is found: an abbreviation at a word start, more letters, then the end of the line or a non-word character |
| `Conditions.Distinct` | Whiteface/Whiteface.py:44-49 | deduplication keeps exactly the same lines and leaves no repeats |
| `Conditions.DistinctKeepsOrder` | Whiteface/Whiteface.py:43-49 | deduplicated lines appear in the order of their first occurrence |
| `Conditions.DistinctOfDistinct` | Whiteface/Whiteface.py:44-49 | a list without repeats comes through unchanged |
| `Conditions.Dedupe` | Whiteface/Whiteface.py:44-49 | the seen-set loop computes the deduplication |
| `Conditions.LastMatch` | Whiteface/Whiteface.py:62-75 | none exactly when no element satisfies the test; otherwise an element of the list that satisfies it |
| `Conditions.LastMatchIsLast` | Whiteface/Whiteface.py:62-75 | a matching element with no match after it is the one kept: the value a loop that overwrites one variable ends with |
| `Conditions.CountLines` | Whiteface/Whiteface.py:77-83 | the count candidates are exactly the lines that are neither date nor temperature and start with "X of Y" |
| `Conditions.CountLinesOrder` | Whiteface/Whiteface.py:78-82 | lifts is the first count line of the page and trails the first count line after it; with no such line there is no candidate |
| `Conditions.ClassifyLines` | Whiteface/Whiteface.py:57-83 | the date is the last date line, the temperature the last temperature line, lifts and trails the first two count lines |
| `Conditions.WithFallback` | Whiteface/Whiteface.py:86-97 | a present non-empty value stays; otherwise the first token passing the test is taken (no earlier token passes), else the value stays |
| `Conditions.Fallback` | Whiteface/Whiteface.py:86-97 | the fallback loop computes WithFallback |
| `Conditions.HasFOrDegree` | Whiteface/Whiteface.py:95 | the token has an 'F' or a degree sign at some position |
| `Conditions.ParseCount` | Whiteface/Whiteface.py:106-107 | a count is parsed only from a present line that matches entirely, and is kept with that line |
| `Conditions.ScrapeConditions` | Whiteface/Whiteface.py:43-115 | the date is the last date line, else the first line mentioning a month; the temperature is the last temperature line, else the first line with F or a degree sign; lifts and trails parse the first two count lines and differ; date and temperature are found whenever a date or temperature line exists |

## Left out

- Downloading, HTTP requests and their failures: each step's outcome is a parameter (`Grib`).
- The 10240-byte size threshold for downloads: the same parameter covers it.
- File-system directories, GRIB clean-up, `gc.collect()` and the text of what is printed. That the snow-rate printout can raise is modelled (`SnowRate.PrintSeries`).
- Writing the JSON files.
- `datetime.utcnow()` and the date string. `Series.CycleHour` takes the shifted UTC hour as a parameter.
- GRIB decoding (`xr.open_dataset`) and `xr.merge`: a `Grib` value and a merge function stand for them.
- `ds.close()` and the `locals()` checks around it: resource handling with no effect on the values.
- Selenium, page loading and HTML parsing (`Whiteface.py` lines 15-41): the scraper starts from the list of lines.
- Floating point: values are reals. NaN, infinities and IEEE rounding are not modelled, and neither is `round(…, 3)` / `round(…, 2)` before storing.
- Grid.NearestOnMesh: distances are compared squared rather than through `np.sqrt`. This gives the same argmin over the reals.
- Grid.NearestOnMesh: a latitude and a longitude mesh of different shapes is an error. numpy would broadcast compatible shapes.
- SnowRate.SnowDepthStep: `max()` of an empty array is taken to raise, as `bool()` of an empty array does from NumPy 2.2. Older NumPy returned False with a warning, and the empty array would have been stored.
- PrecipType.PrecipTypeAt: `csnow > 0` and `prate > 0` on an empty array are taken to raise, as `bool()` of an empty array does from NumPy 2.2, so the step is skipped. Older NumPy would have read them as "not > 0".
- SnowRate.HourlySnow: once the running total is an array, `+=` updates it in place, so earlier entries of `hourly_snow` that share it change too. The model records the total at each index. Any such entry makes the printout raise, so no output depends on the difference.
- `\s` covers the Unicode white space of `str.isspace()`. `\d`, `\w`, `[a-z]` under `re.I` and `str.lower()` are ASCII in the model: non-ASCII digits and letters are not modelled, and `int()` reads ASCII digits only.
- `str.replace('°', '°')` is not modelled: it replaces the degree sign with itself.
- datetime.strptime under `%b %d %Y` and `%B %d %Y` is the parameter `isDate`; its calendar rules are not modelled.
- The `generated_at_utc` timestamp of the conditions JSON.

## Findings

| source | as written | input that shows it | evidently intended | confidence | as-written member | corrected member |
|---|---|---|---|---|---|---|
| Whiteface/Whiteface_Snow_rate.py:91-93 | the hour is appended before `max(snow_depth, 0)` is computed, so a step whose depth raises there leaves an hour with no depth, and every later depth is paired with an earlier hour | an `sde` field of shape 1 x 1 x 2 on a 1 x 1 grid: indexing by the cell gives two depths and `max()` raises | the hour and its depth are appended together, or neither is | not executed | `SnowRate.TwoLayerRunMisaligned` | `SnowRate.CorrectedRunAligned` |
| Whiteface/Whiteface_Snow_rate.py:81-115 | a one-element `sde` block is stored as a NumPy array; a rise next to it makes `accumulated_snow` an array, and `{snow:.2f}` raises TypeError in the printout, so the script ends before the JSON is written | an `sde` field of shape 1 x 1 x 1 on a 1 x 1 grid holding 0.1 m at hour 0 and 0.2 m at hour 6, with no file at any other hour | every stored depth is a number, so the printout and the JSON always follow a run that did not crash | not executed | `SnowRate.RisingOneLayerRaisesAtPrint` | `SnowRate.SnowRateRunCorrected` |
