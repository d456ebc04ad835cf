/**
 * SeriesBuilder: the best-effort loop over the forecast steps that each GFS
 * script runs, appending to forecast_hours and a parallel value list only for
 * the steps that produced a value, plus the forecast schedule and cycle hour.
 */
module Series {
  import opened Common

  /** What processing one forecast step did to the two lists. */
  datatype Step<T> =
    | Appended(value: T)     // the try block finished: the step and its value were appended
    | HourOnly               // the step was appended, then the try block raised before its value was
    | Skipped                // no file, or the try block raised and the except clause caught it
    | Crashed                // an exception outside the try block ended the script
  {
    /** Whether the step ends up in forecast_hours. */
    predicate KeepsHour()
    {
      Appended? || HourOnly?
    }
  }

  /** How a script run ends: killed by an exception, with nothing to write, or with its JSON written. */
  datatype Outcome = Aborted | NoData | Written

  /** FORECAST_STEPS = list(range(0, 385, 6)). */
  function ForecastSteps(): (r: seq<int>)
    ensures |r| == 65 && r[0] == 0 && r[64] == 384
    ensures forall i, j :: 0 <= i < j < |r| ==> r[i] < r[j]
    ensures forall h :: h in r <==> 0 <= h <= 384 && h % 6 == 0
  {
    var r := seq(65, i requires 0 <= i < 65 => 6 * i);
    forall h | 0 <= h <= 384 && h % 6 == 0
      ensures h in r
    {
      assert r[h / 6] == h;
    }
    forall i | 0 <= i < 65
      ensures r[i] % 6 == 0
    {
      assert r[i] == i * 6;
    }
    r
  }

  /** The hour of the latest 6-hourly cycle, current_utc_time.hour // 6 * 6. */
  function CycleHour(hour: nat): (r: nat)
    requires hour < 24
    ensures r % 6 == 0 && r <= hour < r + 6
    ensures r in {0, 6, 12, 18}
  {
    hour / 6 * 6
  }

  /** HOUR_STR = str(cycle hour).zfill(2). */
  function CycleHourString(hour: nat): (r: string)
    requires hour < 24
    ensures r == "00" || r == "06" || r == "12" || r == "18"
    ensures (r[0] as int - '0' as int) * 10 + (r[1] as int - '0' as int) == CycleHour(hour)
  {
    var c := CycleHour(hour);
    if c < 10 then ['0', '0' + c as char] else ['1', '0' + (c - 10) as char]
  }

  /** Index of the first step whose processing ended the script, or |steps|. */
  function RunLength<T>(steps: seq<int>, attempt: int -> Step<T>): (r: nat)
    ensures r <= |steps|
    ensures forall k :: 0 <= k < r ==> !attempt(steps[k]).Crashed?
    ensures r < |steps| ==> attempt(steps[r]).Crashed?
  {
    if steps == [] || attempt(steps[0]).Crashed? then 0
    else 1 + RunLength(steps[1..], attempt)
  }

  /** The steps whose hour was appended, in processing order. */
  function Kept<T>(steps: seq<int>, attempt: int -> Step<T>): (r: seq<int>)
    ensures |r| <= |steps|
  {
    if steps == [] then []
    else
      var last := steps[|steps| - 1];
      Kept(steps[..|steps| - 1], attempt) + (if attempt(last).KeepsHour() then [last] else [])
  }

  /** The values that were appended, in processing order. */
  function Values<T>(steps: seq<int>, attempt: int -> Step<T>): (r: seq<T>)
    ensures |r| <= |Kept(steps, attempt)|
  {
    if steps == [] then []
    else
      var last := attempt(steps[|steps| - 1]);
      Values(steps[..|steps| - 1], attempt) + (if last.Appended? then [last.value] else [])
  }

  /** Number of steps whose hour was not appended. */
  function Missed<T>(steps: seq<int>, attempt: int -> Step<T>): nat
  {
    if steps == [] then 0
    else Missed(steps[..|steps| - 1], attempt) + (if attempt(steps[|steps| - 1]).KeepsHour() then 0 else 1)
  }

  /**
   * The step loop of each GFS script: steps are processed in order, a skipped
   * step leaves both lists alone, a step that raises between the two appends
   * leaves the hour alone, and a crash stops the script.
   */
  method BuildSeries<T>(steps: seq<int>, attempt: int -> Step<T>)
    returns (hours: seq<int>, values: seq<T>, crashed: bool)
    ensures crashed <==> RunLength(steps, attempt) < |steps|
    ensures hours == Kept(steps[..RunLength(steps, attempt)], attempt)
    ensures values == Values(steps[..RunLength(steps, attempt)], attempt)
  {
    hours, values, crashed := [], [], false;
    var i := 0;
    while i < |steps|
      invariant 0 <= i <= |steps|
      invariant forall k :: 0 <= k < i ==> !attempt(steps[k]).Crashed?
      invariant hours == Kept(steps[..i], attempt)
      invariant values == Values(steps[..i], attempt)
    {
      var outcome := attempt(steps[i]);
      if outcome.Crashed? {
        crashed := true;
        break;
      }
      assert steps[..i + 1][..i] == steps[..i];
      if outcome.Appended? {
        hours := hours + [steps[i]];
        values := values + [outcome.value];
      } else if outcome.HourOnly? {
        hours := hours + [steps[i]];
      }
      i := i + 1;
    }
  }

  lemma {:induction false} KeptMembers<T>(steps: seq<int>, attempt: int -> Step<T>, h: int)
    ensures h in Kept(steps, attempt) <==> h in steps && attempt(h).KeepsHour()
  {
    if steps != [] {
      KeptMembers(steps[..|steps| - 1], attempt, h);
      assert steps == steps[..|steps| - 1] + [steps[|steps| - 1]];
    }
  }

  /** No placeholder is left for a missing step: kept plus missed is every step. */
  lemma {:induction false} KeptCount<T>(steps: seq<int>, attempt: int -> Step<T>)
    ensures |Kept(steps, attempt)| + Missed(steps, attempt) == |steps|
  {
    if steps != [] {
      KeptCount(steps[..|steps| - 1], attempt);
    }
  }

  /** Strictly increasing steps give strictly increasing hours. */
  lemma {:induction false} KeptIncreasing<T>(steps: seq<int>, attempt: int -> Step<T>)
    requires forall i, j :: 0 <= i < j < |steps| ==> steps[i] < steps[j]
    ensures var r := Kept(steps, attempt); forall i, j :: 0 <= i < j < |r| ==> r[i] < r[j]
  {
    if steps != [] {
      var init := steps[..|steps| - 1];
      KeptIncreasing(init, attempt);
      var r := Kept(init, attempt);
      forall k | 0 <= k < |r|
        ensures r[k] < steps[|steps| - 1]
      {
        KeptMembers(init, attempt, r[k]);
      }
    }
  }

  /**
   * The two lists have the same length exactly when no step appended its hour
   * alone; then each value is the one its hour's step produced.
   */
  lemma {:induction false} ValuesAligned<T>(steps: seq<int>, attempt: int -> Step<T>)
    ensures |Values(steps, attempt)| == |Kept(steps, attempt)| <==>
              forall k :: 0 <= k < |steps| ==> !attempt(steps[k]).HourOnly?
    ensures (forall k :: 0 <= k < |steps| ==> !attempt(steps[k]).HourOnly?) ==>
              forall k :: 0 <= k < |Kept(steps, attempt)| ==>
                attempt(Kept(steps, attempt)[k]) == Appended(Values(steps, attempt)[k])
  {
    if steps != [] {
      var init := steps[..|steps| - 1];
      var last := steps[|steps| - 1];
      ValuesAligned(init, attempt);
      assert forall k :: 0 <= k < |init| ==> init[k] == steps[k];
      if attempt(last).HourOnly? {
        assert |Values(steps, attempt)| < |Kept(steps, attempt)|;
      }
    }
  }

  /** Every value a run appended was produced by one of its steps. */
  lemma {:induction false} ValuesMembers<T>(steps: seq<int>, attempt: int -> Step<T>)
    ensures forall v :: v in Values(steps, attempt) ==>
              exists k :: 0 <= k < |steps| && attempt(steps[k]) == Appended(v)
  {
    if steps != [] {
      var init := steps[..|steps| - 1];
      ValuesMembers(init, attempt);
      assert forall k :: 0 <= k < |init| ==> init[k] == steps[k];
    }
  }

  /** What holds of every value a step can append holds of every value of a run. */
  lemma {:induction false} ValuesSatisfy<T>(steps: seq<int>, attempt: int -> Step<T>, ok: T -> bool)
    requires forall h :: attempt(h).Appended? ==> ok(attempt(h).value)
    ensures forall k :: 0 <= k < |Values(steps, attempt)| ==> ok(Values(steps, attempt)[k])
  {
    if steps != [] {
      ValuesSatisfy(steps[..|steps| - 1], attempt, ok);
    }
  }

  /** Processing more steps only adds values at the end. */
  lemma {:induction false} ValuesExtend<T>(steps: seq<int>, attempt: int -> Step<T>, m: nat)
    requires m <= |steps|
    ensures Values(steps[..m], attempt) <= Values(steps, attempt)
  {
    if m < |steps| {
      var init := steps[..|steps| - 1];
      ValuesExtend(init, attempt, m);
      assert init[..m] == steps[..m];
    } else {
      assert steps[..m] == steps;
    }
  }

  /** Hours of a finished run are a strictly increasing selection of 0, 6, ..., 384. */
  lemma ForecastHoursIncreasing<T>(attempt: int -> Step<T>, n: nat)
    requires n <= 65
    ensures var r := Kept(ForecastSteps()[..n], attempt);
            (forall i, j :: 0 <= i < j < |r| ==> r[i] < r[j]) &&
            (forall k :: 0 <= k < |r| ==> 0 <= r[k] <= 384 && r[k] % 6 == 0)
  {
    var steps := ForecastSteps()[..n];
    KeptIncreasing(steps, attempt);
    var r := Kept(steps, attempt);
    forall k | 0 <= k < |r|
      ensures 0 <= r[k] <= 384 && r[k] % 6 == 0
    {
      KeptMembers(steps, attempt, r[k]);
    }
  }

  /**
   * The step loop over FORECAST_STEPS, as every script runs it: the hours it
   * keeps come out strictly increasing and on the 6-hour schedule.
   */
  method RunSchedule<T>(attempt: int -> Step<T>) returns (hours: seq<int>, values: seq<T>, crashed: bool)
    ensures crashed <==> RunLength(ForecastSteps(), attempt) < 65
    ensures hours == Kept(ForecastSteps()[..RunLength(ForecastSteps(), attempt)], attempt)
    ensures values == Values(ForecastSteps()[..RunLength(ForecastSteps(), attempt)], attempt)
    ensures forall i, j :: 0 <= i < j < |hours| ==> hours[i] < hours[j]
    ensures forall k :: 0 <= k < |hours| ==> 0 <= hours[k] <= 384 && hours[k] % 6 == 0
    ensures |values| <= |hours|
  {
    hours, values, crashed := BuildSeries(ForecastSteps(), attempt);
    ForecastHoursIncreasing(attempt, RunLength(ForecastSteps(), attempt));
  }

  /** With no step that appends its hour alone, a run's values line up with its hours. */
  lemma ScheduleAligned<T>(attempt: int -> Step<T>, n: nat)
    requires n <= 65
    requires forall h :: !attempt(h).HourOnly?
    ensures var hours, values := Kept(ForecastSteps()[..n], attempt), Values(ForecastSteps()[..n], attempt);
            |values| == |hours| && forall k :: 0 <= k < |hours| ==> attempt(hours[k]) == Appended(values[k])
  {
    ValuesAligned(ForecastSteps()[..n], attempt);
  }
}
