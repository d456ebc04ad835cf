/**
 * Whiteface.py after the page has been read: the "primary secondary" lines of
 * the conditions page are deduplicated, sorted into a date, a temperature and
 * the lifts and trails counts, completed by two fallbacks, and the counts
 * parsed. `isDate` stands for "datetime.strptime accepts the line under
 * %b %d %Y or %B %d %Y".
 */
module Conditions {
  import opened Common
  import opened Patterns

  // ---------------------------------------------------------------------
  // Deduplication

  /** The lines with every repeat of an earlier line removed. */
  function Distinct(lines: seq<string>): (r: seq<string>)
    ensures forall x :: x in r <==> x in lines
    ensures NoDuplicates(r)
  {
    if lines == [] then []
    else
      var init := lines[..|lines| - 1];
      var last := lines[|lines| - 1];
      assert lines == init + [last];
      if last in init then Distinct(init) else Distinct(init) + [last]
  }

  /** Position of the first occurrence of `x`. */
  function FirstPos(s: seq<string>, x: string): (r: nat)
    requires x in s
    ensures r < |s| && s[r] == x && forall k :: 0 <= k < r ==> s[k] != x
  {
    if s[0] == x then 0 else 1 + FirstPos(s[1..], x)
  }

  lemma FirstPosExtend(s: seq<string>, y: string, x: string)
    requires x in s
    ensures FirstPos(s + [y], x) == FirstPos(s, x)
  {
    var p := FirstPos(s, x);
    assert (s + [y])[p] == x;
    forall k | 0 <= k < p
      ensures (s + [y])[k] != x
    {
      assert (s + [y])[k] == s[k];
    }
  }

  /** Deduplication keeps the lines in the order of their first appearance. */
  lemma {:induction false} DistinctKeepsOrder(lines: seq<string>)
    ensures forall i, j :: 0 <= i < j < |Distinct(lines)| ==>
              FirstPos(lines, Distinct(lines)[i]) < FirstPos(lines, Distinct(lines)[j])
  {
    if lines != [] {
      var init := lines[..|lines| - 1];
      var last := lines[|lines| - 1];
      assert lines == init + [last];
      DistinctKeepsOrder(init);
      var r0 := Distinct(init);
      var r := Distinct(lines);
      assert r == if last in init then r0 else r0 + [last];
      forall i, j | 0 <= i < j < |r|
        ensures FirstPos(lines, r[i]) < FirstPos(lines, r[j])
      {
        assert r[i] == r0[i] && r0[i] in init;
        FirstPosExtend(init, last, r0[i]);
        if j < |r0| {
          assert r[j] == r0[j] && r0[j] in init;
          FirstPosExtend(init, last, r0[j]);
          assert FirstPos(init, r0[i]) < FirstPos(init, r0[j]);
        } else {
          assert r[j] == last && last !in init;
          assert FirstPos(lines, last) == |init|;
          assert FirstPos(init, r0[i]) < |init|;
        }
      }
    }
  }

  /** A list that has no repeats comes through unchanged. */
  lemma {:induction false} DistinctOfDistinct(lines: seq<string>)
    requires NoDuplicates(lines)
    ensures Distinct(lines) == lines
  {
    if lines != [] {
      var init := lines[..|lines| - 1];
      assert NoDuplicates(init);
      DistinctOfDistinct(init);
      assert lines == init + [lines[|lines| - 1]];
    }
  }

  /** The seen-set loop of lines 44-49. */
  method Dedupe(lines: seq<string>) returns (deduped: seq<string>)
    ensures deduped == Distinct(lines)
  {
    var seen: set<string> := {};
    deduped := [];
    for i := 0 to |lines|
      invariant deduped == Distinct(lines[..i])
      invariant forall x :: x in seen <==> x in lines[..i]
    {
      assert lines[..i + 1][..i] == lines[..i];
      if lines[i] !in seen {
        seen := seen + {lines[i]};
        deduped := deduped + [lines[i]];
      }
    }
    assert lines[..|lines|] == lines;
  }

  // ---------------------------------------------------------------------
  // Sorting the lines

  /** A line the date branch consumes: it parses as a date and is not empty. */
  predicate IsDateLine(l: string, isDate: string -> bool)
  {
    isDate(l) && l != ""
  }

  /** A line stored as the temperature by the main loop. */
  predicate IsTemperatureLine(l: string, isDate: string -> bool)
  {
    !IsDateLine(l, isDate) && MentionsTemperature(l)
  }

  /** A line that is a candidate for the lifts or trails count. */
  predicate IsCountLine(l: string, isDate: string -> bool)
  {
    !IsDateLine(l, isDate) && !MentionsTemperature(l) && StartsWithCount(l)
  }

  /** The last element satisfying `p`: what a loop overwriting one variable keeps. */
  function LastMatch(s: seq<string>, p: string -> bool): (r: Option<string>)
    ensures r.None? <==> forall k :: 0 <= k < |s| ==> !p(s[k])
    ensures r.Some? ==> r.value in s && p(r.value)
  {
    if s == [] then None
    else if p(s[|s| - 1]) then Some(s[|s| - 1])
    else
      var init := s[..|s| - 1];
      assert forall k :: 0 <= k < |init| ==> init[k] == s[k];
      LastMatch(init, p)
  }

  /** The kept element is the match that no later element follows. */
  lemma {:induction false} LastMatchIsLast(s: seq<string>, p: string -> bool, k: nat)
    requires k < |s| && p(s[k])
    requires forall m :: k < m < |s| ==> !p(s[m])
    ensures LastMatch(s, p) == Some(s[k])
  {
    if k < |s| - 1 {
      var init := s[..|s| - 1];
      assert init[k] == s[k];
      forall m | k < m < |init|
        ensures !p(init[m])
      {
        assert init[m] == s[m];
      }
      LastMatchIsLast(init, p, k);
    }
  }

  lemma LastMatchStep(s: seq<string>, p: string -> bool, i: nat)
    requires i < |s|
    ensures LastMatch(s[..i + 1], p) == if p(s[i]) then Some(s[i]) else LastMatch(s[..i], p)
  {
    assert s[..i + 1][..i] == s[..i];
  }

  lemma LastMatchFound(s: seq<string>, p: string -> bool, x: string)
    requires x in s && p(x)
    ensures LastMatch(s, p).Some?
  {
    var k :| 0 <= k < |s| && s[k] == x;
  }

  /** The candidates for the counts, in page order. */
  function CountLines(deduped: seq<string>, isDate: string -> bool): (r: seq<string>)
    ensures forall x :: x in r <==> x in deduped && IsCountLine(x, isDate)
  {
    FilterMembers(deduped, l => IsCountLine(l, isDate));
    Filter(deduped, l => IsCountLine(l, isDate))
  }

  /**
   * The lifts candidate is the first count line of the page, and the trails
   * candidate the first count line after it.
   */
  lemma CountLinesOrder(deduped: seq<string>, isDate: string -> bool)
    ensures var p := l => IsCountLine(l, isDate);
            var counts := CountLines(deduped, isDate);
            match FirstIndex(deduped, p)
            case None => counts == []
            case Some(k) =>
              Nth(counts, 0) == Some(deduped[k]) &&
              match FirstIndex(deduped[k + 1..], p)
              case None => |counts| == 1
              case Some(m) => Nth(counts, 1) == Some(deduped[k + 1 + m])
  {
    FilterFirstTwo(deduped, l => IsCountLine(l, isDate));
  }

  /** Element `k` of `s`, or None when `s` is shorter. */
  function Nth(s: seq<string>, k: nat): (r: Option<string>)
    ensures r.Some? <==> k < |s|
    ensures r.Some? ==> r.value == s[k]
  {
    if k < |s| then Some(s[k]) else None
  }

  /** How one more line changes the four selections. */
  lemma ClassifyStep(deduped: seq<string>, isDate: string -> bool, i: nat)
    requires i < |deduped|
    ensures LastMatch(deduped[..i + 1], isDate) ==
              if isDate(deduped[i]) then Some(deduped[i]) else LastMatch(deduped[..i], isDate)
    ensures LastMatch(deduped[..i + 1], l => IsTemperatureLine(l, isDate)) ==
              if IsTemperatureLine(deduped[i], isDate) then Some(deduped[i])
              else LastMatch(deduped[..i], l => IsTemperatureLine(l, isDate))
    ensures var before, after := CountLines(deduped[..i], isDate), CountLines(deduped[..i + 1], isDate);
            Nth(after, 0) == (if Nth(before, 0).None? && IsCountLine(deduped[i], isDate) then Some(deduped[i])
                              else Nth(before, 0)) &&
            Nth(after, 1) == (if Nth(before, 0).Some? && Nth(before, 1).None? && IsCountLine(deduped[i], isDate)
                              then Some(deduped[i]) else Nth(before, 1))
  {
    LastMatchStep(deduped, isDate, i);
    LastMatchStep(deduped, l => IsTemperatureLine(l, isDate), i);
    FilterPrefix(deduped, l => IsCountLine(l, isDate), i);
  }

  /**
   * The main loop of lines 57-83: the last date line, the last temperature
   * line, and the first two count lines among those that are neither.
   */
  method ClassifyLines(deduped: seq<string>, isDate: string -> bool)
    returns (date: Option<string>, temperature: Option<string>, liftsRaw: Option<string>, trailsRaw: Option<string>)
    ensures date == LastMatch(deduped, isDate)
    ensures temperature == LastMatch(deduped, l => IsTemperatureLine(l, isDate))
    ensures liftsRaw == Nth(CountLines(deduped, isDate), 0)
    ensures trailsRaw == Nth(CountLines(deduped, isDate), 1)
  {
    date, temperature, liftsRaw, trailsRaw := None, None, None, None;
    for i := 0 to |deduped|
      invariant date == LastMatch(deduped[..i], isDate)
      invariant temperature == LastMatch(deduped[..i], l => IsTemperatureLine(l, isDate))
      invariant liftsRaw == Nth(CountLines(deduped[..i], isDate), 0)
      invariant trailsRaw == Nth(CountLines(deduped[..i], isDate), 1)
    {
      var l := deduped[i];
      ClassifyStep(deduped, isDate, i);
      if isDate(l) {
        date := Some(l);
      }
      assert date.Some? && date.value == l ==> isDate(l);
      if date.Some? && date.value != "" && date.value == l {
        continue;
      }
      assert !IsDateLine(l, isDate);
      if MentionsTemperature(l) {
        temperature := Some(l);
        continue;
      }
      if StartsWithCount(l) {
        if liftsRaw.None? {
          liftsRaw := Some(l);
        } else if trailsRaw.None? {
          trailsRaw := Some(l);
        }
      }
    }
    assert deduped[..|deduped|] == deduped;
  }

  // ---------------------------------------------------------------------
  // Fallbacks and the final record

  /**
   * `if not current:` the first token satisfying `p`; with no such token the
   * current value stays. (The date fallback also requires a non-empty list,
   * which changes nothing: an empty list has no token to take.)
   */
  function WithFallback(current: Option<string>, tokens: seq<string>, p: string -> bool): (r: Option<string>)
    ensures current.Some? && current.value != "" ==> r == current
    ensures (current.None? || current.value == "") && (forall k :: 0 <= k < |tokens| ==> !p(tokens[k])) ==>
              r == current
    ensures (current.None? || current.value == "") && (exists k :: 0 <= k < |tokens| && p(tokens[k])) ==>
              r.Some? &&
              exists k :: 0 <= k < |tokens| && r.value == tokens[k] && p(tokens[k]) &&
                          forall j :: 0 <= j < k ==> !p(tokens[j])
  {
    if current.Some? && current.value != "" then current
    else
      match FirstIndex(tokens, p)
      case Some(k) => Some(tokens[k])
      case None => current
  }

  /** A fallback keeps a found value, and whatever it yields is a token that passes one of the two tests. */
  lemma FallbackKeeps(current: Option<string>, tokens: seq<string>, p: string -> bool, found: string -> bool)
    requires current.Some? ==> current.value in tokens && found(current.value)
    ensures current.Some? ==> WithFallback(current, tokens, p).Some?
    ensures var r := WithFallback(current, tokens, p);
            r.Some? ==> r.value in tokens && (found(r.value) || p(r.value))
  {
  }

  /** The fallback loops of lines 86-97. */
  method Fallback(current: Option<string>, tokens: seq<string>, p: string -> bool) returns (r: Option<string>)
    ensures r == WithFallback(current, tokens, p)
  {
    r := current;
    if current.Some? && current.value != "" {
      return;
    }
    for i := 0 to |tokens|
      invariant r == current
      invariant forall k :: 0 <= k < i ==> !p(tokens[k])
    {
      if p(tokens[i]) {
        r := Some(tokens[i]);
        assert FirstIndex(tokens, p) == Some(i) by {
          FirstIndexIs(tokens, p, i);
        }
        return;
      }
    }
  }

  /** The temperature fallback's test: the token contains 'F' or a degree sign. */
  predicate HasFOrDegree(t: string): (r: bool)
    ensures r <==> exists k :: 0 <= k < |t| && (t[k] == 'F' || t[k] == Degree)
  {
    'F' in t || Degree in t
  }

  /** The `conditions` object of the JSON file. */
  datatype Report = Report(date: Option<string>, temperature: Option<string>, lifts: Option<OfPair>, trails: Option<OfPair>)

  /** parse_of_pair(raw) if raw else None. */
  function ParseCount(raw: Option<string>): (r: Option<OfPair>)
    ensures r.Some? ==> raw.Some? && r.value.raw == raw.value && FullMatch(raw.value).Some?
    ensures raw.Some? && FullMatch(raw.value).Some? ==> r.Some?
  {
    if raw.Some? && raw.value != "" then ParseOfPair(raw.value) else None
  }

  /** Lines 43-115: everything after the page has been read into `lines`. */
  method ScrapeConditions(lines: seq<string>, isDate: string -> bool) returns (c: Report)
    ensures var deduped := Distinct(lines);
            c.date == WithFallback(LastMatch(deduped, isDate), deduped, MentionsMonth) &&
            c.temperature == WithFallback(LastMatch(deduped, l => IsTemperatureLine(l, isDate)), deduped, HasFOrDegree)
    ensures var counts := CountLines(Distinct(lines), isDate);
            c.lifts == ParseCount(Nth(counts, 0)) && c.trails == ParseCount(Nth(counts, 1))
    ensures c.lifts.Some? && c.trails.Some? ==> c.lifts.value.raw != c.trails.value.raw
    ensures c.date.Some? ==> c.date.value in lines && (isDate(c.date.value) || MentionsMonth(c.date.value))
    ensures (exists k :: 0 <= k < |lines| && isDate(lines[k])) ==> c.date.Some?
    ensures c.temperature.Some? ==>
              c.temperature.value in lines &&
              (MentionsTemperature(c.temperature.value) || HasFOrDegree(c.temperature.value))
    ensures (exists k :: 0 <= k < |lines| && IsTemperatureLine(lines[k], isDate)) ==>
              c.temperature.Some? && MentionsTemperature(c.temperature.value)
  {
    var deduped := Dedupe(lines);
    var date, temperature, liftsRaw, trailsRaw := ClassifyLines(deduped, isDate);
    forall k | 0 <= k < |lines| && isDate(lines[k])
      ensures date.Some?
    {
      LastMatchFound(deduped, isDate, lines[k]);
    }
    forall k | 0 <= k < |lines| && IsTemperatureLine(lines[k], isDate)
      ensures temperature.Some?
    {
      LastMatchFound(deduped, l => IsTemperatureLine(l, isDate), lines[k]);
    }
    if temperature.Some? {
      MentionsTemperatureNonEmpty(temperature.value);
    }
    FallbackKeeps(date, deduped, MentionsMonth, isDate);
    FallbackKeeps(temperature, deduped, HasFOrDegree, MentionsTemperature);
    date := Fallback(date, deduped, MentionsMonth);
    temperature := Fallback(temperature, deduped, HasFOrDegree);
    c := Report(date, temperature, ParseCount(liftsRaw), ParseCount(trailsRaw));
    FilterNoDuplicates(deduped, l => IsCountLine(l, isDate));
  }
}
