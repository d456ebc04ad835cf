/**
 * Whiteface_Snow_rate.py: snow depth (variable `sde`) at Whiteface for every
 * forecast step, then the hourly snowfall series.
 */
module SnowRate {
  import opened Common
  import opened Grid
  import opened Datasets
  import opened Series
  import opened Episodes
  import SnowAccumulation

  /**
   * What ds['sde'].values[lat_idx, lon_idx] * 39.3701 holds: one depth in
   * inches, `boxed` when it is a one-element NumPy array rather than a number
   * (a higher-rank field whose trailing axes hold one element), or an array of
   * `size` depths that max(…, 0) cannot compare.
   */
  datatype Depth = One(inches: real, boxed: bool) | Many(size: nat)

  /**
   * A depth as the script stores it: its value in inches, and whether Python
   * holds it as a one-element array. Arithmetic keeps an array an array, and
   * an array cannot be formatted with `:.2f`.
   */
  datatype Reading = Reading(inches: real, boxed: bool)

  /** The values of a list of readings. */
  function Inches(d: seq<Reading>): (r: seq<real>)
    ensures |r| == |d| && forall k :: 0 <= k < |d| ==> r[k] == d[k].inches
  {
    seq(|d|, k requires 0 <= k < |d| => d[k].inches)
  }

  /**
   * get_snow_depth_at_location(ds, lat, lon). The field is not squeezed, so a
   * 3-D field indexed by the cell gives the block over its remaining axes.
   */
  function SnowDepthAt(ds: Dataset, lat: real, lon: real): (r: Result<Depth>)
    ensures NearestCell(ds.latitude, ds.longitude, lat, lon).Err? ==>
              r == Err(NearestCell(ds.latitude, ds.longitude, lat, lon).error)
    ensures NearestCell(ds.latitude, ds.longitude, lat, lon).Ok? && !Has(ds, "sde") ==>
              r == Err(MissingVariable)
    ensures r.Ok? <==>
              NearestCell(ds.latitude, ds.longitude, lat, lon).Ok? && Has(ds, "sde") &&
              !IndexCell(Lookup(ds, "sde").value, NearestCell(ds.latitude, ds.longitude, lat, lon).value).IndexError?
    ensures r.Ok? ==>
              var x := IndexCell(Lookup(ds, "sde").value, NearestCell(ds.latitude, ds.longitude, lat, lon).value);
              (r.value.One? <==> AsNumber(x).Some?) &&
              (r.value.One? ==> InchesToMetres(r.value.inches) == AsNumber(x).value) &&
              (r.value.One? ==> (r.value.boxed <==> x.SubArray?)) &&
              (r.value.Many? ==> r.value.size == |x.elems| && r.value.size != 1)
  {
    var cell :- NearestCell(ds.latitude, ds.longitude, lat, lon);
    match Lookup(ds, "sde")
    case None => Err(MissingVariable)
    case Some(sde) =>
      var x := IndexCell(sde, cell);
      match AsNumber(x)
      case Some(metres) => Ok(One(MetresToInches(metres), x.SubArray?))
      case None => if x.SubArray? then Ok(Many(|x.elems|)) else Err(NotAScalar)
  }

  /**
   * max(snow_depth, 0) on one depth. Python keeps the first argument unless
   * 0 > it, so a negative depth becomes the number 0 and any other depth is
   * kept as it is, array or not.
   */
  function MaxWithZero(d: Reading): (r: Reading)
    ensures r.inches == ClampToZero(d.inches)
    ensures r.boxed <==> d.boxed && d.inches >= 0.0
  {
    if 0.0 > d.inches then Reading(0.0, false) else d
  }

  /**
   * One pass of the step loop as written: a raising download or an unreadable
   * file kills the script, no file or a failed extraction skips the step, an
   * array of depths appends the hour and then raises in max(), and one depth
   * appends the hour and max(depth, 0).
   */
  function SnowDepthStep(grib: Grib): (r: Step<Reading>)
    ensures grib.NoFile? ==> r == Skipped
    ensures grib.DownloadRaised? || grib.Unreadable? <==> r == Crashed
    ensures r.Appended? ==> r.value.inches >= 0.0
    ensures grib.Decoded? ==>
              var depth := SnowDepthAt(grib.ds, WhitefaceLat, WhitefaceLon);
              (r.Appended? <==> depth.Ok? && depth.value.One?) &&
              (r.HourOnly? <==> depth.Ok? && depth.value.Many?) &&
              (r.Appended? ==>
                 r.value.inches == ClampToZero(depth.value.inches) &&
                 (r.value.boxed <==> depth.value.boxed && depth.value.inches >= 0.0))
  {
    match grib
    case DownloadRaised => Crashed
    case NoFile => Skipped
    case Unreadable => Crashed
    case Decoded(ds) =>
      match SnowDepthAt(ds, WhitefaceLat, WhitefaceLon)
      case Err(_) => Skipped
      case Ok(Many(_)) => HourOnly
      case Ok(One(depth, boxed)) => Appended(MaxWithZero(Reading(depth, boxed)))
  }

  /**
   * A 1 x 1 grid whose depth field has a trailing axis of length 2, so the
   * cell's block holds two depths.
   */
  const TwoLayerDepth: Dataset :=
    Dataset([Variable("sde", RawArray([1, 1, 2], [0.5, 0.25]))], RawArray([1], [44.25]), RawArray([1], [286.0]))

  /** On that grid the step appends its hour and then raises. */
  lemma TwoLayerDepthAppendsHourOnly()
    ensures SnowDepthStep(Decoded(TwoLayerDepth)) == HourOnly
  {
    var ds := TwoLayerDepth;
    assert Size([2]) == 2 && Size([1, 2]) == 2;
    assert Names(ds) == ["sde"];
    assert NearestCell(ds.latitude, ds.longitude, WhitefaceLat, WhitefaceLon) == Ok(Cell(0, 0));
    assert Lookup(ds, "sde") == Some(ds.vars[0].values);
  }

  /** A run that decodes that grid at every step ends with more hours than depths. */
  lemma TwoLayerRunMisaligned()
    ensures var attempt := step => SnowDepthStep(Decoded(TwoLayerDepth));
            var n := RunLength(ForecastSteps(), attempt);
            n == 65 && |Values(ForecastSteps()[..n], attempt)| < |Kept(ForecastSteps()[..n], attempt)|
  {
    var attempt := step => SnowDepthStep(Decoded(TwoLayerDepth));
    forall h
      ensures attempt(h) == HourOnly
    {
      TwoLayerDepthAppendsHourOnly();
    }
    var n := RunLength(ForecastSteps(), attempt);
    assert n == 65;
    ValuesAligned(ForecastSteps()[..n], attempt);
    assert attempt(ForecastSteps()[..n][0]).HourOnly?;
  }

  /** A 1 x 1 grid whose depth field has a trailing axis of length 1, holding `metres`. */
  function OneLayerDepth(metres: real): Dataset
  {
    Dataset([Variable("sde", RawArray([1, 1, 1], [metres]))], RawArray([1], [44.25]), RawArray([1], [286.0]))
  }

  /** On that grid a non-negative depth is stored as a one-element array. */
  lemma OneLayerDepthStoresArray(metres: real)
    requires metres >= 0.0
    ensures SnowDepthStep(Decoded(OneLayerDepth(metres))) == Appended(Reading(MetresToInches(metres), true))
  {
    var ds := OneLayerDepth(metres);
    assert Size([1]) == 1 && Size([1, 1]) == 1;
    assert Names(ds) == ["sde"];
    assert NearestCell(ds.latitude, ds.longitude, WhitefaceLat, WhitefaceLon) == Ok(Cell(0, 0));
    assert Lookup(ds, "sde") == Some(ds.vars[0].values);
  }

  /** The downloads of that run: 0.1 m at hour 0, 0.2 m at hour 6, no file at any other hour. */
  function RisingOneLayer(step: int): Grib
  {
    if step == 0 then Decoded(OneLayerDepth(0.1))
    else if step == 6 then Decoded(OneLayerDepth(0.2))
    else NoFile
  }

  /** The first two steps of that run store its two depths, both as arrays. */
  lemma RisingOneLayerFirstSteps()
    ensures var attempt := step => SnowDepthStep(RisingOneLayer(step));
            Values(ForecastSteps()[..2], attempt) ==
              [Reading(MetresToInches(0.1), true), Reading(MetresToInches(0.2), true)]
  {
    var attempt := step => SnowDepthStep(RisingOneLayer(step));
    OneLayerDepthStoresArray(0.1);
    OneLayerDepthStoresArray(0.2);
    var steps := ForecastSteps()[..2];
    assert steps == [0, 6] && steps[..1] == [0];
    assert attempt(0) == Appended(Reading(MetresToInches(0.1), true));
    assert attempt(6) == Appended(Reading(MetresToInches(0.2), true));
  }

  /** No step of that run raises outside the try block, so the run processes every step. */
  lemma RisingOneLayerRunLength()
    ensures RunLength(ForecastSteps(), step => SnowDepthStep(RisingOneLayer(step))) == 65
  {
    var attempt := step => SnowDepthStep(RisingOneLayer(step));
    forall h
      ensures !attempt(h).Crashed?
    {
      var grib := RisingOneLayer(h);
      assert grib.Decoded? || grib.NoFile?;
      assert attempt(h) == SnowDepthStep(grib);
    }
  }

  /**
   * A run that stores 0.1 m and then 0.2 m on that grid, with no file at any
   * other step, processes every step and rises next to an array, so the
   * print of the hourly series raises and no JSON is written.
   */
  lemma RisingOneLayerRaisesAtPrint()
    ensures var attempt := step => SnowDepthStep(RisingOneLayer(step));
            var n := RunLength(ForecastSteps(), attempt);
            n == 65 && RiseTouchesArray(Values(ForecastSteps()[..n], attempt))
  {
    var attempt := step => SnowDepthStep(RisingOneLayer(step));
    RisingOneLayerRunLength();
    var steps := ForecastSteps()[..65];
    RisingOneLayerFirstSteps();
    ValuesExtend(steps, attempt, 2);
    assert steps[..2] == ForecastSteps()[..2];
    var d := Values(steps, attempt);
    assert d[0] == Reading(MetresToInches(0.1), true) && d[1] == Reading(MetresToInches(0.2), true);
    assert RisesNextToArray(d, 1);
  }

  /**
   * The step as evidently intended: the depth is made one number and clamped
   * before either list grows, so a step that cannot produce one depth is
   * skipped and every stored depth is a number.
   */
  function SnowDepthStepCorrected(grib: Grib): (r: Step<Reading>)
    ensures !r.HourOnly?
    ensures r.Appended? ==> r.value.inches >= 0.0 && !r.value.boxed
    ensures SnowDepthStep(grib).HourOnly? ==> r == Skipped
    ensures SnowDepthStep(grib).Appended? ==> r == Appended(Reading(SnowDepthStep(grib).value.inches, false))
    ensures SnowDepthStep(grib).Skipped? || SnowDepthStep(grib).Crashed? ==> r == SnowDepthStep(grib)
  {
    match SnowDepthStep(grib)
    case HourOnly => Skipped
    case Appended(depth) => Appended(Reading(depth.inches, false))
    case other => other
  }

  /** In a run as written, every depth is clamped at zero. */
  lemma RunDepthsClamped(source: int -> Grib, n: nat)
    requires n <= 65
    ensures var attempt := step => SnowDepthStep(source(step));
            var depths := Values(ForecastSteps()[..n], attempt);
            forall k :: 0 <= k < |depths| ==> depths[k].inches >= 0.0
  {
    var attempt := step => SnowDepthStep(source(step));
    forall h
      ensures attempt(h).Appended? ==> attempt(h).value.inches >= 0.0
    {
      assert attempt(h) == SnowDepthStep(source(h));
    }
    ValuesSatisfy(ForecastSteps()[..n], attempt, (v: Reading) => v.inches >= 0.0);
  }

  /**
   * In a run as written, the two lists have the same length exactly when no
   * processed step appended its hour alone.
   */
  lemma RunAlignedIff(source: int -> Grib, n: nat)
    requires n <= 65
    ensures var attempt := step => SnowDepthStep(source(step));
            |Values(ForecastSteps()[..n], attempt)| == |Kept(ForecastSteps()[..n], attempt)| <==>
            forall k :: 0 <= k < n ==> !SnowDepthStep(source(ForecastSteps()[k])).HourOnly?
  {
    var attempt := step => SnowDepthStep(source(step));
    var steps := ForecastSteps()[..n];
    ValuesAligned(steps, attempt);
    assert forall k :: 0 <= k < |steps| ==> attempt(steps[k]) == SnowDepthStep(source(ForecastSteps()[k]));
  }

  /**
   * In a run of the corrected step, each depth is the one its hour's step
   * produced, and every depth is a non-negative number, so no rise involves
   * an array.
   */
  lemma CorrectedRunAligned(source: int -> Grib)
    ensures var attempt := step => SnowDepthStepCorrected(source(step));
            var n := RunLength(ForecastSteps(), attempt);
            var hours, depths := Kept(ForecastSteps()[..n], attempt), Values(ForecastSteps()[..n], attempt);
            |depths| == |hours| &&
            (forall k :: 0 <= k < |hours| ==> SnowDepthStepCorrected(source(hours[k])) == Appended(depths[k])) &&
            (forall k :: 0 <= k < |depths| ==> depths[k].inches >= 0.0 && !depths[k].boxed) &&
            !RiseTouchesArray(depths)
  {
    var attempt := step => SnowDepthStepCorrected(source(step));
    forall h
      ensures !attempt(h).HourOnly?
      ensures attempt(h).Appended? ==> attempt(h).value.inches >= 0.0 && !attempt(h).value.boxed
    {
      assert attempt(h) == SnowDepthStepCorrected(source(h));
    }
    var n := RunLength(ForecastSteps(), attempt);
    ScheduleAligned(attempt, n);
    ValuesSatisfy(ForecastSteps()[..n], attempt, (v: Reading) => v.inches >= 0.0 && !v.boxed);
  }

  /**
   * Whether accumulated_snow, and so hourly_snow[i], is an array: it is reset
   * to the number 0 when the depth does not rise, and it becomes an array once
   * a rise of the current run involves a depth held as an array.
   */
  predicate HeldAsArray(d: seq<Reading>, i: nat)
    requires i < |d|
  {
    i > 0 && d[i].inches > d[i - 1].inches && (d[i].boxed || d[i - 1].boxed || HeldAsArray(d, i - 1))
  }

  /** The depth rises at `i`, and one of the two depths compared is held as an array. */
  predicate RisesNextToArray(d: seq<Reading>, i: nat)
    requires 0 < i < |d|
  {
    d[i].inches > d[i - 1].inches && (d[i].boxed || d[i - 1].boxed)
  }

  /** Some rise of the series involves a depth held as an array. */
  predicate RiseTouchesArray(d: seq<Reading>)
  {
    exists i :: 0 < i < |d| && RisesNextToArray(d, i)
  }

  /** An hourly total is an array only because some earlier rise involved one. */
  lemma {:induction false} HeldAsArrayCause(d: seq<Reading>, i: nat)
    requires i < |d|
    ensures HeldAsArray(d, i) ==> exists j :: 0 < j <= i && RisesNextToArray(d, j)
  {
    if HeldAsArray(d, i) {
      if RisesNextToArray(d, i) {
      } else {
        HeldAsArrayCause(d, i - 1);
      }
    }
  }

  /** Some hourly total is an array exactly when some rise involves a depth held as one. */
  lemma HeldAsArrayIff(d: seq<Reading>)
    ensures (exists k :: 0 <= k < |d| && HeldAsArray(d, k)) ==> RiseTouchesArray(d)
    ensures RiseTouchesArray(d) ==> exists k :: 0 <= k < |d| && HeldAsArray(d, k)
  {
    forall k | 0 <= k < |d| && HeldAsArray(d, k)
      ensures RiseTouchesArray(d)
    {
      HeldAsArrayCause(d, k);
      var j :| 0 < j <= k && RisesNextToArray(d, j);
      assert 0 < j < |d| && RisesNextToArray(d, j);
    }
    if RiseTouchesArray(d) {
      var i :| 0 < i < |d| && RisesNextToArray(d, i);
      assert HeldAsArray(d, i);
    }
  }

  /** The recurrence of the hourly loop: reset to the number 0, or add the increment. */
  function HourlyRecurrence(d: seq<Reading>, i: nat): Reading
    requires i < |d|
  {
    if i == 0 || d[i].inches <= d[i - 1].inches then Reading(0.0, false)
    else
      var previous := HourlyRecurrence(d, i - 1);
      Reading(previous.inches + Max(d[i].inches - d[i - 1].inches, 0.0),
              previous.boxed || d[i].boxed || d[i - 1].boxed)
  }

  /** The recurrence yields the rise since the current run began, in terms of the depths' values. */
  lemma {:induction false} HourlyRecurrenceRise(d: seq<Reading>, values: seq<real>, i: nat)
    requires i < |d| == |values|
    requires forall k :: 0 <= k < |d| ==> values[k] == d[k].inches
    ensures HourlyRecurrence(d, i).inches == Episode(values, i)
  {
    EpisodeStep(values, i);
    if i > 0 && d[i].inches > d[i - 1].inches {
      HourlyRecurrenceRise(d, values, i - 1);
    }
  }

  /** The recurrence is an array exactly when its run has risen next to a depth held as one. */
  lemma {:induction false} HourlyRecurrenceArray(d: seq<Reading>, i: nat)
    requires i < |d|
    ensures HourlyRecurrence(d, i).boxed <==> HeldAsArray(d, i)
  {
    if i > 0 && d[i].inches > d[i - 1].inches {
      HourlyRecurrenceArray(d, i - 1);
    }
  }

  /**
   * The hourly snowfall loop: 0 at the first step and at every step that does
   * not rise, otherwise the accumulated rise so far. Its values are the same
   * series as compute_positive_accum of the accumulation script; an entry is
   * an array exactly when its run has risen next to a depth held as one.
   */
  method HourlySnow(snowDepths: seq<Reading>) returns (hourlySnow: seq<Reading>)
    ensures |hourlySnow| == |snowDepths|
    ensures forall i :: 0 <= i < |snowDepths| ==>
              hourlySnow[i].inches == Episode(Inches(snowDepths), i) &&
              (hourlySnow[i].boxed <==> HeldAsArray(snowDepths, i))
  {
    hourlySnow := [];
    var accumulatedSnow := Reading(0.0, false);
    for i := 0 to |snowDepths|
      invariant |hourlySnow| == i
      invariant forall k :: 0 <= k < i ==> hourlySnow[k] == HourlyRecurrence(snowDepths, k)
      invariant i > 0 ==> accumulatedSnow == hourlySnow[i - 1]
    {
      if i == 0 || snowDepths[i].inches <= snowDepths[i - 1].inches {
        accumulatedSnow := Reading(0.0, false);
        hourlySnow := hourlySnow + [Reading(0.0, false)];
      } else {
        var increment := Reading(Max(snowDepths[i].inches - snowDepths[i - 1].inches, 0.0),
                                 snowDepths[i].boxed || snowDepths[i - 1].boxed);
        accumulatedSnow := Reading(accumulatedSnow.inches + increment.inches, accumulatedSnow.boxed || increment.boxed);
        hourlySnow := hourlySnow + [accumulatedSnow];
      }
    }
    forall i | 0 <= i < |snowDepths|
      ensures hourlySnow[i].inches == Episode(Inches(snowDepths), i)
      ensures hourlySnow[i].boxed <==> HeldAsArray(snowDepths, i)
    {
      HourlyRecurrenceRise(snowDepths, Inches(snowDepths), i);
      HourlyRecurrenceArray(snowDepths, i);
    }
  }

  /**
   * The print loop over zip(forecast_hours, hourly_snow): `{snow:.2f}` raises
   * at the first entry held as an array.
   */
  method PrintSeries(hours: seq<int>, hourlySnow: seq<Reading>) returns (raised: bool)
    ensures raised <==> exists k :: 0 <= k < |hours| && k < |hourlySnow| && hourlySnow[k].boxed
  {
    raised := false;
    var i := 0;
    while i < |hours| && i < |hourlySnow|
      invariant 0 <= i
      invariant i <= |hours| && i <= |hourlySnow|
      invariant forall k :: 0 <= k < i ==> !hourlySnow[k].boxed
    {
      if hourlySnow[i].boxed {
        raised := true;
        return;
      }
      i := i + 1;
    }
  }

  /**
   * The print over the hourly series raises exactly when some rise involves a
   * depth held as an array.
   */
  lemma PrintRaisesIff(hours: seq<int>, snowDepths: seq<Reading>, hourlySnow: seq<Reading>)
    requires |hourlySnow| == |snowDepths| <= |hours|
    requires forall i :: 0 <= i < |snowDepths| ==> (hourlySnow[i].boxed <==> HeldAsArray(snowDepths, i))
    ensures (exists k :: 0 <= k < |hours| && k < |hourlySnow| && hourlySnow[k].boxed) <==> RiseTouchesArray(snowDepths)
  {
    HeldAsArrayIff(snowDepths);
    if exists k :: 0 <= k < |hours| && k < |hourlySnow| && hourlySnow[k].boxed {
      var k :| 0 <= k < |hours| && k < |hourlySnow| && hourlySnow[k].boxed;
      assert HeldAsArray(snowDepths, k);
    }
    if RiseTouchesArray(snowDepths) {
      var k :| 0 <= k < |snowDepths| && HeldAsArray(snowDepths, k);
      assert hourlySnow[k].boxed;
    }
  }

  /**
   * The two accumulation loops of the snow scripts, run on the same depths,
   * emit the same values.
   */
  method LoopsAgree(depths: seq<Reading>) returns (running: seq<real>, hourlySnow: seq<Reading>)
    ensures running == Inches(hourlySnow)
  {
    running := SnowAccumulation.ComputePositiveAccum(Inches(depths));
    hourlySnow := HourlySnow(depths);
  }

  /**
   * What the script does once the step loop is over: the hourly series, its
   * printout, which raises at an entry held as an array, and the JSON.
   */
  method Report(hours: seq<int>, snowDepths: seq<Reading>) returns (hourlySnow: seq<Reading>, outcome: Outcome)
    requires |snowDepths| <= |hours|
    ensures outcome == Aborted <==> RiseTouchesArray(snowDepths)
    ensures outcome == Written <==> outcome != Aborted && |hours| > 0 && |snowDepths| > 0
    ensures outcome != Aborted ==>
              |hourlySnow| == |snowDepths| &&
              forall i :: 0 <= i < |snowDepths| ==>
                hourlySnow[i] == Reading(Episode(Inches(snowDepths), i), false)
  {
    hourlySnow := HourlySnow(snowDepths);
    var raised := PrintSeries(hours, hourlySnow);
    PrintRaisesIff(hours, snowDepths, hourlySnow);
    if raised {
      outcome := Aborted;
      return;
    }
    outcome := if |hours| > 0 && |hourlySnow| > 0 then Written else NoData;
  }

  /**
   * The whole script as written, minus downloads, files and the text of the
   * printout. It ends with an exception on a crash in the step loop, or in the
   * print when a rise involves a depth held as an array; otherwise the JSON
   * holds the hours and the hourly series, which has one entry per depth.
   */
  method SnowRateRun(source: int -> Grib)
    returns (hours: seq<int>, snowDepths: seq<Reading>, hourlySnow: seq<Reading>, outcome: Outcome)
    ensures var steps := ForecastSteps();
            var n := RunLength(steps, step => SnowDepthStep(source(step)));
            (outcome == Aborted <==> n < |steps| || RiseTouchesArray(snowDepths)) &&
            hours == Kept(steps[..n], step => SnowDepthStep(source(step))) &&
            snowDepths == Values(steps[..n], step => SnowDepthStep(source(step))) &&
            (|snowDepths| == |hours| <==> forall k :: 0 <= k < n ==> !SnowDepthStep(source(steps[k])).HourOnly?)
    ensures forall i, j :: 0 <= i < j < |hours| ==> hours[i] < hours[j]
    ensures |snowDepths| <= |hours|
    ensures forall k :: 0 <= k < |snowDepths| ==> snowDepths[k].inches >= 0.0
    ensures outcome == Written <==> outcome != Aborted && |hours| > 0 && |snowDepths| > 0
    ensures outcome != Aborted ==>
              |hourlySnow| == |snowDepths| &&
              forall i :: 0 <= i < |snowDepths| ==>
                hourlySnow[i] == Reading(Episode(Inches(snowDepths), i), false)
  {
    var crashed;
    hours, snowDepths, crashed := RunSchedule(step => SnowDepthStep(source(step)));
    RunDepthsClamped(source, RunLength(ForecastSteps(), step => SnowDepthStep(source(step))));
    RunAlignedIff(source, RunLength(ForecastSteps(), step => SnowDepthStep(source(step))));
    if crashed {
      hourlySnow, outcome := [], Aborted;
      return;
    }
    hourlySnow, outcome := Report(hours, snowDepths);
  }

  /**
   * The script with the corrected step: every hour has its depth, every depth
   * is a number, and so the print never raises.
   */
  method SnowRateRunCorrected(source: int -> Grib)
    returns (hours: seq<int>, snowDepths: seq<Reading>, hourlySnow: seq<Reading>, outcome: Outcome)
    ensures var steps := ForecastSteps();
            var n := RunLength(steps, step => SnowDepthStepCorrected(source(step)));
            (outcome == Aborted <==> n < |steps|) &&
            hours == Kept(steps[..n], step => SnowDepthStepCorrected(source(step)))
    ensures forall i, j :: 0 <= i < j < |hours| ==> hours[i] < hours[j]
    ensures |snowDepths| == |hours|
    ensures forall k :: 0 <= k < |hours| ==>
              snowDepths[k].inches >= 0.0 && !snowDepths[k].boxed &&
              SnowDepthStepCorrected(source(hours[k])) == Appended(snowDepths[k])
    ensures outcome == Written <==> outcome != Aborted && |hours| > 0
    ensures outcome != Aborted ==>
              |hourlySnow| == |hours| &&
              forall i :: 0 <= i < |snowDepths| ==>
                hourlySnow[i] == Reading(Episode(Inches(snowDepths), i), false)
  {
    var crashed;
    hours, snowDepths, crashed := RunSchedule(step => SnowDepthStepCorrected(source(step)));
    CorrectedRunAligned(source);
    if crashed {
      hourlySnow, outcome := [], Aborted;
      return;
    }
    hourlySnow, outcome := Report(hours, snowDepths);
  }
}
