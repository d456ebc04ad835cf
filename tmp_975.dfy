/**
 * Whiteface_TMP_975.py: the 975 mb temperature at Whiteface for every
 * forecast step, converted from Kelvin to Fahrenheit.
 */
module Temperature975 {
  import opened Common
  import opened Grid
  import opened Datasets
  import opened Series

  /** find_temp_variable: the first temperature-like name, else the first name. */
  function FindTemperatureVariable(ds: Dataset): (r: Result<string>)
    ensures r.Err? <==> ds.vars == []
    ensures r.Ok? ==> Has(ds, r.value)
    ensures (exists i :: 0 <= i < |ds.vars| && IsTemperatureName(ds.vars[i].name)) ==>
              r.Ok? && IsTemperatureName(r.value)
    ensures r.Ok? && !IsTemperatureName(r.value) ==> r.value == ds.vars[0].name
    ensures r.Ok? && IsTemperatureName(r.value) ==>
              exists k :: 0 <= k < |ds.vars| && ds.vars[k].name == r.value &&
                          forall j :: 0 <= j < k ==> !IsTemperatureName(ds.vars[j].name)
  {
    SelectVariable(Names(ds), IsTemperatureName)
  }

  /**
   * The squeezed field read at `cell` on a 1-D grid: vararr[lat_idx, lon_idx]
   * for a 2-D field, vararr[0, lat_idx, lon_idx] for a 3-D one, vararr[lat_idx]
   * for a 1-D one; a 0-d field raises IndexError.
   */
  function AxesFieldAt(v: NdArray, cell: Cell): (r: Option<real>)
    ensures |v.shape| == 2 ==> r == ValueAtCell(v, cell)
    ensures |v.shape| == 3 ==>
              (r.Some? <==> 0 < v.shape[0] && cell.latIdx < v.shape[1] && cell.lonIdx < v.shape[2]) &&
              (r.Some? ==> cell.latIdx * v.shape[2] + cell.lonIdx < |v.data| &&
                           r.value == v.data[cell.latIdx * v.shape[2] + cell.lonIdx])
    ensures |v.shape| == 1 ==>
              (r.Some? <==> cell.latIdx < |v.data|) && (r.Some? ==> r.value == v.data[cell.latIdx])
    ensures |v.shape| == 0 || |v.shape| > 3 ==> r.None?
  {
    var i, j := cell.latIdx, cell.lonIdx;
    if |v.shape| == 2 then ValueAtCell(v, cell)
    else if |v.shape| >= 3 then
      if |v.shape| == 3 && 0 < v.shape[0] && i < v.shape[1] && j < v.shape[2] then
        OffsetFirstSlice(v.shape, i, j);
        Element(v, [0, i, j])
      else
        assert !InBounds(v.shape, [0, i, j]);
        Element(v, [0, i, j])
    else if |v.shape| == 1 then
      SizeLowRank(v.shape);
      if i < v.shape[0] then OffsetRankOne(v.shape, [i]); Element(v, [i])
      else assert !InBounds(v.shape, [i]); Element(v, [i])
    else Element(v, [i, j])
  }

  /**
   * get_var_at_location followed by float(): on a 2-D grid only a 2-D field
   * gives one number (vararr[..., i, j] of a 3-D field is a vector, and a
   * lower-rank field raises IndexError); on a 1-D grid see AxesFieldAt.
   */
  function VarAtLocation(ds: Dataset, varname: string, lat: real, lon: real): (r: Result<real>)
    ensures !Has(ds, varname) ==> r == Err(MissingVariable)
    ensures Has(ds, varname) && NearestCell(ds.latitude, ds.longitude, lat, lon).Err? ==>
              r == Err(NearestCell(ds.latitude, ds.longitude, lat, lon).error)
    ensures r.Ok? && |ds.latitude.shape| == 2 ==>
              ValueAtCell(Squeeze(Lookup(ds, varname).value),
                          NearestCell(ds.latitude, ds.longitude, lat, lon).value) == Some(r.value)
    ensures r.Ok? && |ds.latitude.shape| == 1 ==>
              AxesFieldAt(Squeeze(Lookup(ds, varname).value),
                          NearestCell(ds.latitude, ds.longitude, lat, lon).value) == Some(r.value)
    ensures r.Ok? <==>
              Has(ds, varname) && NearestCell(ds.latitude, ds.longitude, lat, lon).Ok? &&
              (if |ds.latitude.shape| == 2
               then ValueAtCell(Squeeze(Lookup(ds, varname).value),
                                NearestCell(ds.latitude, ds.longitude, lat, lon).value).Some?
               else AxesFieldAt(Squeeze(Lookup(ds, varname).value),
                                NearestCell(ds.latitude, ds.longitude, lat, lon).value).Some?)
  {
    match Lookup(ds, varname)
    case None => Err(MissingVariable)
    case Some(values) =>
      var v := Squeeze(values);
      var cell :- NearestCell(ds.latitude, ds.longitude, lat, lon);
      var value := if |ds.latitude.shape| == 2 then ValueAtCell(v, cell) else AxesFieldAt(v, cell);
      if value.Some? then Ok(value.value) else Err(NotAScalar)
  }

  /**
   * One pass of the step loop: no file skips the step, an unreadable file
   * kills the script, a failed lookup skips it, and a success appends the
   * value in Fahrenheit.
   */
  function TemperatureStep(grib: Grib): (r: Step<real>)
    ensures grib.NoFile? ==> r == Skipped
    ensures grib.DownloadRaised? || grib.Unreadable? <==> r == Crashed
    ensures !r.HourOnly?
    ensures grib.Decoded? ==>
              var name := FindTemperatureVariable(grib.ds);
              (r.Appended? <==> name.Ok? && VarAtLocation(grib.ds, name.value, WhitefaceLat, WhitefaceLon).Ok?) &&
              (r.Appended? ==>
                 FahrenheitToKelvin(r.value) == VarAtLocation(grib.ds, name.value, WhitefaceLat, WhitefaceLon).value)
  {
    match grib
    case DownloadRaised => Crashed
    case NoFile => Skipped
    case Unreadable => Crashed
    case Decoded(ds) =>
      match FindTemperatureVariable(ds)
      case Err(_) => Skipped
      case Ok(name) =>
        match VarAtLocation(ds, name, WhitefaceLat, WhitefaceLon)
        case Err(_) => Skipped
        case Ok(kelvin) => Appended(KelvinToFahrenheit(kelvin))
  }

  /** Every step appends its hour and its temperature together, so the two lists line up. */
  lemma RunAligned(source: int -> Grib)
    ensures var attempt := step => TemperatureStep(source(step));
            var n := RunLength(ForecastSteps(), attempt);
            var hours, temps := Kept(ForecastSteps()[..n], attempt), Values(ForecastSteps()[..n], attempt);
            |temps| == |hours| &&
            forall k :: 0 <= k < |hours| ==> TemperatureStep(source(hours[k])) == Appended(temps[k])
  {
    var attempt := step => TemperatureStep(source(step));
    forall h
      ensures !attempt(h).HourOnly?
    {
      assert attempt(h) == TemperatureStep(source(h));
    }
    ScheduleAligned(attempt, RunLength(ForecastSteps(), attempt));
  }

  /** The whole script minus downloads, files and printing. */
  method TemperatureRun(source: int -> Grib) returns (hours: seq<int>, tempsF: seq<real>, outcome: Outcome)
    ensures var steps := ForecastSteps();
            var n := RunLength(steps, step => TemperatureStep(source(step)));
            (outcome == Aborted <==> n < |steps|) &&
            hours == Kept(steps[..n], step => TemperatureStep(source(step)))
    ensures forall i, j :: 0 <= i < j < |hours| ==> hours[i] < hours[j]
    ensures |tempsF| == |hours|
    ensures forall k :: 0 <= k < |hours| ==> TemperatureStep(source(hours[k])) == Appended(tempsF[k])
    ensures outcome == Written <==> outcome != Aborted && |hours| > 0
  {
    var crashed;
    hours, tempsF, crashed := RunSchedule(step => TemperatureStep(source(step)));
    RunAligned(source);
    outcome := if crashed then Aborted else if |hours| > 0 && |tempsF| > 0 then Written else NoData;
  }
}
