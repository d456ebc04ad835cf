/**
 * Whiteface_Snow_ACC_ANL.py: snow depth (SNOD at the surface) at Whiteface for
 * every forecast step, then the running positive accumulation that restarts
 * whenever the depth stops rising.
 */
module SnowAccumulation {
  import opened Common
  import opened Grid
  import opened Datasets
  import opened Series
  import opened Episodes

  /**
   * The squeezed field read at `cell`: arr[i, j] for a 2-D field, arr[0, i, j]
   * for a 3-D one, float(arr) for a scalar; anything else raises.
   */
  function FieldAt(arr: NdArray, cell: Cell): (r: Option<real>)
    ensures |arr.shape| == 2 ==>
              (r.Some? <==> cell.latIdx < arr.shape[0] && cell.lonIdx < arr.shape[1]) &&
              (r.Some? ==> cell.latIdx * arr.shape[1] + cell.lonIdx < |arr.data| &&
                           r.value == arr.data[cell.latIdx * arr.shape[1] + cell.lonIdx])
    ensures |arr.shape| == 3 ==>
              (r.Some? <==> 0 < arr.shape[0] && cell.latIdx < arr.shape[1] && cell.lonIdx < arr.shape[2]) &&
              (r.Some? ==> cell.latIdx * arr.shape[2] + cell.lonIdx < |arr.data| &&
                           r.value == arr.data[cell.latIdx * arr.shape[2] + cell.lonIdx])
    ensures |arr.shape| == 0 ==> r == Some(arr.data[0])
    ensures |arr.shape| == 1 || |arr.shape| > 3 ==> r.None?
  {
    var i, j := cell.latIdx, cell.lonIdx;
    if |arr.shape| == 2 then ValueAtCell(arr, cell)
    else if |arr.shape| >= 3 then
      if arr.shape[0] > 0 then
        if |arr.shape| == 3 && i < arr.shape[1] && j < arr.shape[2] then
          OffsetFirstSlice(arr.shape, i, j);
          Element(arr, [0, i, j])
        else
          assert !InBounds(arr.shape, [0, i, j]);
          Element(arr, [0, i, j])
      else Element(arr, [i, j])
    else Element(arr, [])
  }

  /** get_snow_depth_at_location(ds, varname, lat, lon): the nearest cell's value, in inches. */
  function SnowDepthAt(ds: Dataset, varname: string, lat: real, lon: real): (r: Result<real>)
    ensures NearestCell(ds.latitude, ds.longitude, lat, lon).Err? ==>
              r == Err(NearestCell(ds.latitude, ds.longitude, lat, lon).error)
    ensures r.Ok? <==>
              NearestCell(ds.latitude, ds.longitude, lat, lon).Ok? && Has(ds, varname) &&
              FieldAt(Squeeze(Lookup(ds, varname).value),
                      NearestCell(ds.latitude, ds.longitude, lat, lon).value).Some?
    ensures r.Ok? ==>
              r.value == FieldAt(Squeeze(Lookup(ds, varname).value),
                                 NearestCell(ds.latitude, ds.longitude, lat, lon).value).value * 39.3701
  {
    var cell :- NearestCell(ds.latitude, ds.longitude, lat, lon);
    match Lookup(ds, varname)
    case None => Err(MissingVariable)
    case Some(values) =>
      match FieldAt(Squeeze(values), cell)
      case None => Err(NotAScalar)
      case Some(metres) => Ok(MetresToInches(metres))
  }

  /**
   * One pass of the step loop: no file skips the step, an unreadable file
   * kills the script (xr.open_dataset is outside the try), a failed
   * extraction skips the step, and a success appends max(depth, 0).
   */
  function SnowDepthStep(grib: Grib): (r: Step<real>)
    ensures grib.NoFile? ==> r == Skipped
    ensures grib.DownloadRaised? || grib.Unreadable? <==> r == Crashed
    ensures !r.HourOnly?
    ensures r.Appended? ==> r.value >= 0.0
    ensures grib.Decoded? ==>
              var name := SelectVariable(Names(grib.ds), IsSnowName);
              (r.Appended? <==> name.Ok? && SnowDepthAt(grib.ds, name.value, WhitefaceLat, WhitefaceLon).Ok?) &&
              (r.Appended? ==> r.value == ClampToZero(SnowDepthAt(grib.ds, name.value, WhitefaceLat, WhitefaceLon).value))
  {
    match grib
    case DownloadRaised => Crashed
    case NoFile => Skipped
    case Unreadable => Crashed
    case Decoded(ds) =>
      match SelectVariable(Names(ds), IsSnowName)
      case Err(_) => Skipped
      case Ok(name) =>
        match SnowDepthAt(ds, name, WhitefaceLat, WhitefaceLon)
        case Err(_) => Skipped
        case Ok(depth) => Appended(ClampToZero(depth))
  }

  /**
   * compute_positive_accum without the rounding: the running total of rises
   * that restarts at every step that does not rise.
   */
  method ComputePositiveAccum(depths: seq<real>) returns (running: seq<real>)
    ensures |running| == |depths|
    ensures forall i :: 0 <= i < |depths| ==> running[i] == Episode(depths, i)
  {
    running := [];
    var total := 0.0;
    var accumulating := false;
    for i := 0 to |depths|
      invariant |running| == i
      invariant forall k :: 0 <= k < i ==> running[k] == Episode(depths, k)
      invariant total >= 0.0 && (accumulating <==> total > 0.0)
      invariant i > 0 ==> total == Episode(depths, i - 1)
    {
      EpisodeStep(depths, i);
      if i == 0 {
        total := 0.0;
        accumulating := false;
      } else {
        var inc := Max(depths[i] - depths[i - 1], 0.0);
        if inc > 0.0 {
          if !accumulating {
            total := 0.0;
            accumulating := true;
          }
          total := total + inc;
        } else {
          total := 0.0;
          accumulating := false;
        }
      }
      running := running + [total];
    }
  }

  /** Every step appends its hour and its depth together, so the two lists line up. */
  lemma RunAligned(source: int -> Grib)
    ensures var attempt := step => SnowDepthStep(source(step));
            var n := RunLength(ForecastSteps(), attempt);
            var hours, depths := Kept(ForecastSteps()[..n], attempt), Values(ForecastSteps()[..n], attempt);
            |depths| == |hours| &&
            forall k :: 0 <= k < |hours| ==> SnowDepthStep(source(hours[k])) == Appended(depths[k])
  {
    var attempt := step => SnowDepthStep(source(step));
    forall h
      ensures !attempt(h).HourOnly?
    {
      assert attempt(h) == SnowDepthStep(source(h));
    }
    ScheduleAligned(attempt, RunLength(ForecastSteps(), attempt));
  }

  /**
   * The whole script minus downloads and files: `source` gives what
   * downloading and decoding produced for each forecast step.
   */
  method SnowAccumulationRun(source: int -> Grib)
    returns (hours: seq<int>, depths: seq<real>, running: seq<real>, outcome: Outcome)
    ensures var steps := ForecastSteps();
            var n := RunLength(steps, step => SnowDepthStep(source(step)));
            (outcome == Aborted <==> n < |steps|) &&
            hours == Kept(steps[..n], step => SnowDepthStep(source(step)))
    ensures forall i, j :: 0 <= i < j < |hours| ==> hours[i] < hours[j]
    ensures |depths| == |hours|
    ensures forall k :: 0 <= k < |hours| ==>
              depths[k] >= 0.0 && SnowDepthStep(source(hours[k])) == Appended(depths[k])
    ensures outcome == Written <==> outcome != Aborted && |hours| > 0
    ensures outcome == Written ==>
              |running| == |depths| && forall i :: 0 <= i < |depths| ==> running[i] == Episode(depths, i)
  {
    var crashed;
    hours, depths, crashed := RunSchedule(step => SnowDepthStep(source(step)));
    RunAligned(source);
    running := [];
    if crashed {
      outcome := Aborted;
    } else if |hours| > 0 && |depths| > 0 {
      running := ComputePositiveAccum(depths);
      outcome := Written;
    } else {
      outcome := NoData;
    }
  }
}
