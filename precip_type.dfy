/**
 * Whiteface_precip_type.py: the precipitation type at Whiteface for every
 * forecast step, from the categorical-snow flag (CSNOW) and the precipitation
 * rate (PRATE), which arrive in two separate files that are merged.
 */
module PrecipType {
  import opened Common
  import opened Grid
  import opened Datasets
  import opened Series

  /** The three labels the script emits. */
  datatype PrecipKind = Snow | Rain | NoPrecip {
    function Label(): (r: string)
      ensures r in {"snow", "rain", "none"}
    {
      match this
      case Snow => "snow"
      case Rain => "rain"
      case NoPrecip => "none"
    }
  }

  /** The if/elif chain: snow first, then rain, else none. */
  function Classify(csnow: real, prate: real): (r: PrecipKind)
    ensures r == Snow <==> csnow > 0.0
    ensures r == Rain <==> csnow <= 0.0 && prate > 0.0
    ensures r == NoPrecip <==> csnow <= 0.0 && prate <= 0.0
  {
    if csnow > 0.0 then Snow
    else if prate > 0.0 then Rain
    else NoPrecip
  }

  /** The labels are distinct, so the emitted string determines the class. */
  lemma LabelInjective(a: PrecipKind, b: PrecipKind)
    ensures a.Label() == b.Label() <==> a == b
  {
    if a != b {
      assert a.Label()[0] != b.Label()[0];
    }
  }

  /** Multiplying both fields by the same positive factor never changes the class. */
  lemma ClassifyScaleFree(c: real, csnow: real, prate: real)
    requires c > 0.0
    ensures Classify(c * csnow, c * prate) == Classify(csnow, prate)
  {
    assert c * csnow > 0.0 <==> csnow > 0.0;
    assert c * prate > 0.0 <==> prate > 0.0;
  }

  /** The worked examples of the classifier, snow taking precedence over rain. */
  lemma ClassifyExamples()
    ensures Classify(0.0, 0.5).Label() == "rain"
    ensures Classify(1.0, 0.0).Label() == "snow"
    ensures Classify(0.0, 0.0).Label() == "none"
    ensures Classify(1.0, 0.5).Label() == "snow"
  {
  }

  /**
   * ds['csnow'].values[lat_idx, lon_idx] as one number, or 0 when the merged
   * dataset has no csnow; None where indexing raises or the result is an
   * array that `csnow > 0` cannot reduce to one truth value.
   */
  function CsnowAt(ds: Dataset, cell: Cell): (r: Option<real>)
    ensures !Has(ds, "csnow") ==> r == Some(0.0)
    ensures Has(ds, "csnow") ==> r == AsNumber(IndexCell(Lookup(ds, "csnow").value, cell))
  {
    if Has(ds, "csnow") then AsNumber(IndexCell(Lookup(ds, "csnow").value, cell)) else Some(0.0)
  }

  /**
   * get_precip_type(ds, lat, lon): both fields are read unsqueezed at the
   * nearest cell and scaled to per-hour. csnow is read first and a missing
   * one counts as 0; prate must exist and be indexable, but it is compared
   * only when csnow does not already say snow.
   */
  function PrecipTypeAt(ds: Dataset, lat: real, lon: real): (r: Result<PrecipKind>)
    ensures NearestCell(ds.latitude, ds.longitude, lat, lon).Err? ==>
              r == Err(NearestCell(ds.latitude, ds.longitude, lat, lon).error)
    ensures var c := NearestCell(ds.latitude, ds.longitude, lat, lon);
            c.Ok? ==>
              var csnow := CsnowAt(ds, c.value);
              (r.Ok? <==>
                 csnow.Some? && Has(ds, "prate") &&
                 !IndexCell(Lookup(ds, "prate").value, c.value).IndexError? &&
                 (csnow.value <= 0.0 ==> AsNumber(IndexCell(Lookup(ds, "prate").value, c.value)).Some?)) &&
              (r.Ok? ==> (r.value == Snow <==> csnow.value > 0.0)) &&
              (r.Ok? && r.value != Snow ==>
                 r.value == Classify(csnow.value, AsNumber(IndexCell(Lookup(ds, "prate").value, c.value)).value))
    ensures r.Ok? && !Has(ds, "csnow") ==> r.value != Snow
  {
    var cell :- NearestCell(ds.latitude, ds.longitude, lat, lon);
    match CsnowAt(ds, cell)
    case None => Err(NotAScalar)
    case Some(rawCsnow) =>
      match Lookup(ds, "prate")
      case None => Err(MissingVariable)
      case Some(field) =>
        var x := IndexCell(field, cell);
        if x.IndexError? then Err(NotAScalar)
        else if PerHour(rawCsnow) > 0.0 then Ok(Snow)
        else
          match AsNumber(x)
          case None => Err(NotAScalar)
          case Some(v) =>
            ClassifyScaleFree(3600.0, rawCsnow, v);
            Ok(Classify(PerHour(rawCsnow), PerHour(v)))
  }

  /**
   * One pass of the step loop: both downloads run outside the try, so either
   * one raising kills the script; both files must have been obtained; opening,
   * merging and classifying happen inside the try, so any failure there only
   * skips the step.
   */
  function PrecipStep(prate: Grib, csnow: Grib, merge: (Dataset, Dataset) -> Option<Dataset>): (r: Step<PrecipKind>)
    ensures r == Crashed <==> prate.DownloadRaised? || csnow.DownloadRaised?
    ensures !r.HourOnly?
    ensures r.Appended? <==>
              prate.Decoded? && csnow.Decoded? && merge(prate.ds, csnow.ds).Some? &&
              PrecipTypeAt(merge(prate.ds, csnow.ds).value, WhitefaceLat, WhitefaceLon).Ok?
    ensures r.Appended? ==>
              r.value == PrecipTypeAt(merge(prate.ds, csnow.ds).value, WhitefaceLat, WhitefaceLon).value
  {
    if prate.DownloadRaised? || csnow.DownloadRaised? then Crashed
    else if prate.NoFile? || csnow.NoFile? then Skipped
    else if prate.Unreadable? || csnow.Unreadable? then Skipped
    else
      match merge(prate.ds, csnow.ds)
      case None => Skipped
      case Some(combined) =>
        match PrecipTypeAt(combined, WhitefaceLat, WhitefaceLon)
        case Err(_) => Skipped
        case Ok(kind) => Appended(kind)
  }

  /** The label of each class, in order. */
  function Labels(kinds: seq<PrecipKind>): (r: seq<string>)
    ensures |r| == |kinds| && forall k :: 0 <= k < |kinds| ==> r[k] == kinds[k].Label()
  {
    seq(|kinds|, k requires 0 <= k < |kinds| => kinds[k].Label())
  }

  /** Every step appends its hour and its class together, so the two lists line up. */
  lemma RunAligned(prateSource: int -> Grib, csnowSource: int -> Grib,
                   merge: (Dataset, Dataset) -> Option<Dataset>)
    ensures var attempt := step => PrecipStep(prateSource(step), csnowSource(step), merge);
            var n := RunLength(ForecastSteps(), attempt);
            var hours, kinds := Kept(ForecastSteps()[..n], attempt), Values(ForecastSteps()[..n], attempt);
            |kinds| == |hours| &&
            forall k :: 0 <= k < |hours| ==>
              PrecipStep(prateSource(hours[k]), csnowSource(hours[k]), merge) == Appended(kinds[k])
  {
    var attempt := step => PrecipStep(prateSource(step), csnowSource(step), merge);
    forall h
      ensures !attempt(h).HourOnly?
    {
      assert attempt(h) == PrecipStep(prateSource(h), csnowSource(h), merge);
    }
    ScheduleAligned(attempt, RunLength(ForecastSteps(), attempt));
  }

  /**
   * The whole script minus downloads, files and printing: `prateSource` and
   * `csnowSource` give what downloading and decoding produced for each step,
   * `merge` stands for xr.merge.
   */
  method PrecipTypeRun(prateSource: int -> Grib, csnowSource: int -> Grib,
                       merge: (Dataset, Dataset) -> Option<Dataset>)
    returns (hours: seq<int>, types: seq<string>, outcome: Outcome)
    ensures var steps := ForecastSteps();
            var n := RunLength(steps, step => PrecipStep(prateSource(step), csnowSource(step), merge));
            (outcome == Aborted <==> n < |steps|) &&
            hours == Kept(steps[..n], step => PrecipStep(prateSource(step), csnowSource(step), merge))
    ensures forall i, j :: 0 <= i < j < |hours| ==> hours[i] < hours[j]
    ensures |types| == |hours|
    ensures forall k :: 0 <= k < |hours| ==>
              var s := PrecipStep(prateSource(hours[k]), csnowSource(hours[k]), merge);
              s.Appended? && types[k] == s.value.Label()
    ensures outcome == Written <==> outcome != Aborted && |hours| > 0
  {
    var kinds, crashed;
    hours, kinds, crashed := RunSchedule(step => PrecipStep(prateSource(step), csnowSource(step), merge));
    RunAligned(prateSource, csnowSource, merge);
    types := Labels(kinds);
    outcome := if crashed then Aborted else if |hours| > 0 && |types| > 0 then Written else NoData;
  }
}
