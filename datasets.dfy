/**
 * FieldExtractor, the parts the GFS scripts share: a decoded GRIB dataset,
 * the name heuristics that pick its variable, and the unit conversions.
 */
module Datasets {
  import opened Common
  import opened Grid

  /** One data variable of a dataset, as ds[name].values gives it. */
  datatype Variable = Variable(name: string, values: NdArray)

  /**
   * What xr.open_dataset(..., engine="cfgrib") yields: the data variables in
   * their iteration order, and the latitude and longitude coordinates.
   */
  datatype Dataset = Dataset(vars: seq<Variable>, latitude: NdArray, longitude: NdArray)

  /** What one forecast step's download and decode produced. */
  datatype Grib =
    | DownloadRaised  // download_file raised: requests.get, the streamed write or the size check failed
    | NoFile          // download_file returned None: bad status or a file under 10240 bytes
    | Unreadable      // the file was saved but xr.open_dataset raised
    | Decoded(ds: Dataset)

  // Whiteface Mountain, the fixed target of every script.
  const WhitefaceLat: real := 44.3659
  const WhitefaceLon: real := -73.9023

  /** list(ds.data_vars), in order. */
  function Names(ds: Dataset): (r: seq<string>)
    ensures |r| == |ds.vars| && forall i :: 0 <= i < |r| ==> r[i] == ds.vars[i].name
  {
    seq(|ds.vars|, i requires 0 <= i < |ds.vars| => ds.vars[i].name)
  }

  /** `name in ds` */
  predicate Has(ds: Dataset, name: string)
  {
    name in Names(ds)
  }

  /** ds[name].values; None where Python raises KeyError. */
  function Lookup(ds: Dataset, name: string): (r: Option<NdArray>)
    ensures r.Some? <==> Has(ds, name)
    ensures r.Some? ==> exists i :: 0 <= i < |ds.vars| && ds.vars[i] == Variable(name, r.value)
  {
    match FirstIndex(Names(ds), n => n == name)
    case Some(i) => Some(ds.vars[i].values)
    case None => None
  }

  /** str.lower() on the ASCII letters. */
  function Lower(s: string): (r: string)
    ensures |r| == |s|
    ensures forall i :: 0 <= i < |s| ==>
              r[i] == if 'A' <= s[i] <= 'Z' then (s[i] as int + 32) as char else s[i]
  {
    if s == [] then []
    else [if 'A' <= s[0] <= 'Z' then (s[0] as int + 32) as char else s[0]] + Lower(s[1..])
  }

  predicate OccursAt(s: string, t: string, i: nat)
  {
    i + |t| <= |s| && s[i..i + |t|] == t
  }

  /** Python's `t in s` for strings. */
  predicate Contains(s: string, t: string)
  {
    exists i | 0 <= i <= |s| - |t| :: OccursAt(s, t, i)
  }

  /** The test of find_snow_var; its "snod" alternative never decides, "sno" already covers it. */
  predicate IsSnowName(name: string): (r: bool)
    ensures r <==> Contains(Lower(name), "sno") || Contains(Lower(name), "sde")
  {
    var l := Lower(name);
    assert Contains(l, "snod") ==> Contains(l, "sno") by {
      if Contains(l, "snod") {
        SnodImpliesSno(l);
      }
    }
    Contains(l, "sno") || Contains(l, "sde") || Contains(l, "snod")
  }

  /** The test of find_temp_variable: every name it accepts has a 't' in it, in either case. */
  predicate IsTemperatureName(name: string): (r: bool)
    ensures r ==> exists i :: 0 <= i < |name| && (name[i] == 't' || name[i] == 'T')
  {
    var l := Lower(name);
    if Contains(l, "temp") then
      var i :| 0 <= i <= |l| - 4 && OccursAt(l, "temp", i);
      assert l[i] == "temp"[0];
      true
    else if l == "t" then
      assert l[0] == 't';
      true
    else if Contains(l, "tmp") then
      var i :| 0 <= i <= |l| - 3 && OccursAt(l, "tmp", i);
      assert l[i] == "tmp"[0];
      true
    else false
  }

  /**
   * find_snow_var / find_temp_variable: the first name passing `matches`,
   * else the first name; an empty dataset raises IndexError.
   */
  function SelectVariable(names: seq<string>, matches: string -> bool): (r: Result<string>)
    ensures r.Err? <==> names == []
    ensures r.Err? ==> r.error == NoVariables
    ensures r.Ok? ==> r.value in names
    ensures r.Ok? && (exists i :: 0 <= i < |names| && matches(names[i])) ==>
              exists k :: 0 <= k < |names| && r.value == names[k] && matches(names[k]) &&
                          forall j :: 0 <= j < k ==> !matches(names[j])
    ensures r.Ok? && (forall i :: 0 <= i < |names| ==> !matches(names[i])) ==> r.value == names[0]
  {
    match FirstIndex(names, matches)
    case Some(k) => Ok(names[k])
    case None => if names == [] then Err(NoVariables) else Ok(names[0])
  }

  /** The "snod" alternative of find_snow_var can never decide: "sno" already matches. */
  lemma {:induction false} SnodImpliesSno(l: string)
    requires Contains(l, "snod")
    ensures Contains(l, "sno")
  {
    var i :| 0 <= i <= |l| - 4 && OccursAt(l, "snod", i);
    assert l[i..i + 3] == l[i..i + 4][..3];
    assert OccursAt(l, "sno", i);
  }

  /** Metres to inches, as the snow-depth scripts convert: 1 m is 39.3701 in. */
  function MetresToInches(m: real): (r: real)
    ensures InchesToMetres(r) == m
    ensures (r > 0.0 <==> m > 0.0) && (r < 0.0 <==> m < 0.0)
  {
    m * 39.3701
  }

  /** The inverse conversion, the partner of MetresToInches. */
  function InchesToMetres(i: real): real
  {
    i / 39.3701
  }

  lemma MetresToInchesFacts(m1: real, m2: real)
    ensures MetresToInches(1.0) == 39.3701
    ensures MetresToInches(m1 + m2) == MetresToInches(m1) + MetresToInches(m2)
    ensures MetresToInches(m1) < MetresToInches(m2) <==> m1 < m2
  {
  }

  /** Kelvin to Fahrenheit by way of Celsius. */
  function KelvinToFahrenheit(k: real): (r: real)
    ensures FahrenheitToKelvin(r) == k
  {
    (k - 273.15) * 9.0 / 5.0 + 32.0
  }

  /** The inverse conversion, the partner of KelvinToFahrenheit. */
  function FahrenheitToKelvin(f: real): (r: real)
  {
    (f - 32.0) * 5.0 / 9.0 + 273.15
  }

  lemma KelvinToFahrenheitFacts(k1: real, k2: real)
    ensures KelvinToFahrenheit(273.15) == 32.0
    ensures KelvinToFahrenheit(k1) < KelvinToFahrenheit(k2) <==> k1 < k2
  {
  }

  /** Per second to per hour. */
  function PerHour(x: real): (r: real)
    ensures (r > 0.0 <==> x > 0.0) && (r == 0.0 <==> x == 0.0)
  {
    x * 3600.0
  }

  /** max(x, 0): a negative value read from the grid is stored as zero. */
  function ClampToZero(x: real): (r: real)
    ensures r >= 0.0
    ensures x >= 0.0 ==> r == x
    ensures x < 0.0 ==> r == 0.0
  {
    Max(x, 0.0)
  }
}
