/**
 * The three regular expressions of the conditions scraper, Whiteface.py,
 * written as scanners over the line: `\d+\s*°?\s*[Ff]` (a temperature),
 * `^\d+\s+of\s+\d+` (a lifts or trails count), and the month-word search of
 * the date fallback, plus parse_of_pair. Character classes are ASCII.
 */
module Patterns {
  import opened Common
  import opened Datasets

  predicate IsDigit(c: char) { '0' <= c <= '9' }

  /**
   * `\s` of a str pattern: the ASCII whitespace (tab to carriage return, the
   * file/group/record/unit separators, space) and the Unicode white space
   * characters str.isspace() accepts.
   */
  predicate IsSpace(c: char) {
    ('\t' <= c <= '\r') || ('\U{001C}' <= c <= ' ') || c == '\U{0085}' || c == '\U{00A0}' ||
    c == '\U{1680}' || ('\U{2000}' <= c <= '\U{200A}') || c == '\U{2028}' || c == '\U{2029}' ||
    c == '\U{202F}' || c == '\U{205F}' || c == '\U{3000}'
  }

  predicate IsLetter(c: char) { 'a' <= c <= 'z' || 'A' <= c <= 'Z' }

  /** `\w`, the characters on the inside of a `\b` word boundary. */
  predicate IsWordChar(c: char) { IsLetter(c) || IsDigit(c) || c == '_' }

  const Degree: char := '\U{00B0}'

  /** Every character of s[from..to] satisfies `p`. */
  predicate All(s: string, from: nat, to: nat, p: char -> bool)
    requires from <= to <= |s|
  {
    forall k :: from <= k < to ==> p(s[k])
  }

  /** End of the longest run of `p`-characters starting at `i` (a greedy `p*`). */
  function SkipWhile(s: string, i: nat, p: char -> bool): (r: nat)
    requires i <= |s|
    ensures i <= r <= |s| && All(s, i, r, p)
    ensures r == |s| || !p(s[r])
    decreases |s| - i
  {
    if i == |s| || !p(s[i]) then i else SkipWhile(s, i + 1, p)
  }

  /** A run is determined by where it starts. */
  lemma SkipWhileUnique(s: string, i: nat, j: nat, p: char -> bool)
    requires i <= j <= |s| && All(s, i, j, p) && (j == |s| || !p(s[j]))
    ensures SkipWhile(s, i, p) == j
  {
  }

  // ---------------------------------------------------------------------
  // `\d+\s*°?\s*[Ff]`, searched anywhere in the line

  /**
   * The temperature pattern matches starting at `i`. The three classes are
   * disjoint, so the greedy scan is the only way the pattern can match.
   */
  predicate TemperatureAt(s: string, i: nat)
    requires i <= |s|
  {
    var a := SkipWhile(s, i, IsDigit);
    var b := SkipWhile(s, a, IsSpace);
    var c := if b < |s| && s[b] == Degree then b + 1 else b;
    var d := SkipWhile(s, c, IsSpace);
    i < a && d < |s| && (s[d] == 'F' || s[d] == 'f')
  }

  /** re.search(r'\d+\s*°?\s*[Ff]', s): a line it accepts has a digit and an F. */
  predicate MentionsTemperature(s: string): (r: bool)
    ensures r ==> exists k :: 0 <= k < |s| && IsDigit(s[k])
    ensures r ==> exists k :: 0 <= k < |s| && (s[k] == 'F' || s[k] == 'f')
  {
    if exists i | 0 <= i <= |s| :: TemperatureAt(s, i) then
      var i :| 0 <= i <= |s| && TemperatureAt(s, i);
      var a := SkipWhile(s, i, IsDigit);
      var b := SkipWhile(s, a, IsSpace);
      var c := if b < |s| && s[b] == Degree then b + 1 else b;
      var d := SkipWhile(s, c, IsSpace);
      assert IsDigit(s[i]) && (s[d] == 'F' || s[d] == 'f');
      true
    else false
  }

  lemma MentionsTemperatureNonEmpty(s: string)
    ensures MentionsTemperature(s) ==> s != ""
  {
  }

  /**
   * Every way of writing digits, spaces, an optional degree sign, spaces and
   * an F is found by the scan.
   */
  lemma {:induction false} TemperatureComplete(s: string, i: nat, a: nat, b: nat, c: nat, d: nat)
    requires i < a <= b <= c <= d < |s|
    requires All(s, i, a, IsDigit) && All(s, a, b, IsSpace) && All(s, c, d, IsSpace)
    requires c == b || (c == b + 1 && s[b] == Degree)
    requires s[d] == 'F' || s[d] == 'f'
    ensures MentionsTemperature(s)
  {
    assert !IsDigit(s[a]) by {
      if a < b {
        assert IsSpace(s[a]);
      } else if c == b && c < d {
        assert IsSpace(s[c]);
      }
    }
    SkipWhileUnique(s, i, a, IsDigit);
    if c == b + 1 {
      SkipWhileUnique(s, a, b, IsSpace);
      SkipWhileUnique(s, c, d, IsSpace);
    } else {
      assert All(s, a, d, IsSpace);
      SkipWhileUnique(s, a, d, IsSpace);
      SkipWhileUnique(s, d, d, IsSpace);
    }
    assert TemperatureAt(s, i);
  }

  /** A line with no digit never reads as a temperature. */
  lemma NoDigitNoTemperature(s: string)
    requires forall k :: 0 <= k < |s| ==> !IsDigit(s[k])
    ensures !MentionsTemperature(s)
  {
    forall i | 0 <= i <= |s|
      ensures !TemperatureAt(s, i)
    {
      SkipWhileUnique(s, i, i, IsDigit);
    }
  }

  lemma TemperatureExamples()
    ensures MentionsTemperature("25\U{00B0}F")
    ensures MentionsTemperature("Base 18 F")
  {
    TemperatureComplete("25\U{00B0}F", 0, 2, 2, 3, 3);
    TemperatureComplete("Base 18 F", 5, 7, 8, 8, 8);
  }

  // ---------------------------------------------------------------------
  // `\d+\s+of\s+\d+`

  /** Where the five pieces of an "X of Y" count lie in a line. */
  datatype Spans = Spans(openFrom: nat, openTo: nat, ofAt: nat, totalFrom: nat, totalTo: nat)

  /** digits, at least one space, "of", at least one space, digits. */
  predicate WellPlaced(s: string, m: Spans)
  {
    m.openFrom < m.openTo < m.ofAt && m.ofAt + 2 < m.totalFrom < m.totalTo <= |s| &&
    All(s, m.openFrom, m.openTo, IsDigit) && All(s, m.openTo, m.ofAt, IsSpace) &&
    s[m.ofAt] == 'o' && s[m.ofAt + 1] == 'f' &&
    All(s, m.ofAt + 2, m.totalFrom, IsSpace) && All(s, m.totalFrom, m.totalTo, IsDigit)
  }

  /** `\d+\s+of\s+\d+` matched greedily at `i`. */
  function MatchCounts(s: string, i: nat): (r: Option<Spans>)
    requires i <= |s|
    ensures r.Some? ==>
              r.value.openFrom == i && WellPlaced(s, r.value) &&
              (r.value.totalTo == |s| || !IsDigit(s[r.value.totalTo]))
  {
    var a := SkipWhile(s, i, IsDigit);
    var b := SkipWhile(s, a, IsSpace);
    if a == i || b == a || |s| < b + 2 || s[b] != 'o' || s[b + 1] != 'f' then None
    else
      var c := SkipWhile(s, b + 2, IsSpace);
      var d := SkipWhile(s, c, IsDigit);
      if c == b + 2 || d == c then None else Some(Spans(i, a, b, c, d))
  }

  /** A well-placed count that cannot be extended is exactly what the scan finds. */
  lemma MatchCountsExact(s: string, m: Spans)
    requires WellPlaced(s, m) && (m.totalTo == |s| || !IsDigit(s[m.totalTo]))
    ensures MatchCounts(s, m.openFrom) == Some(m)
  {
    SkipWhileUnique(s, m.openFrom, m.openTo, IsDigit);
    SkipWhileUnique(s, m.openTo, m.ofAt, IsSpace);
    SkipWhileUnique(s, m.ofAt + 2, m.totalFrom, IsSpace);
    SkipWhileUnique(s, m.totalFrom, m.totalTo, IsDigit);
  }

  /** re.match(r'^\d+\s+of\s+\d+', s): the line opens with a digit and has an "of" after it. */
  predicate StartsWithCount(s: string): (r: bool)
    ensures r ==> |s| > 0 && IsDigit(s[0])
    ensures r ==> exists j :: 0 < j && j + 1 < |s| && s[j] == 'o' && s[j + 1] == 'f'
  {
    match MatchCounts(s, 0)
    case None => false
    case Some(m) =>
      assert IsDigit(s[0]) && s[m.ofAt] == 'o' && s[m.ofAt + 1] == 'f';
      true
  }

  /** Any count at the head of the line is found, however the line goes on. */
  lemma StartsWithCountComplete(s: string, m: Spans)
    requires m.openFrom == 0 && WellPlaced(s, m)
    ensures StartsWithCount(s)
  {
    var d := SkipWhile(s, m.totalTo, IsDigit);
    var m' := m.(totalTo := d);
    assert All(s, m.totalFrom, d, IsDigit) by {
      forall k | m.totalFrom <= k < d
        ensures IsDigit(s[k])
      {
        if k >= m.totalTo {
          assert All(s, m.totalTo, d, IsDigit);
        }
      }
    }
    MatchCountsExact(s, m');
  }

  // ---------------------------------------------------------------------
  // parse_of_pair: `^\s*(\d+)\s+of\s+(\d+)\s*$`

  /** The parsed count, as stored in the JSON: the raw line and its two numbers. */
  datatype OfPair = OfPair(raw: string, open: nat, total: nat)

  function DigitValue(c: char): nat
    requires IsDigit(c)
  {
    c as nat - '0' as nat
  }

  function Pow10(n: nat): (r: nat)
    ensures r >= 1
  {
    if n == 0 then 1 else 10 * Pow10(n - 1)
  }

  /** int() of a string of decimal digits: n digits give a value below 10^n. */
  function DigitsValue(t: string): (r: nat)
    requires forall k :: 0 <= k < |t| ==> IsDigit(t[k])
    ensures r < Pow10(|t|)
  {
    if t == [] then 0 else 10 * DigitsValue(t[..|t| - 1]) + DigitValue(t[|t| - 1])
  }

  /** Leading zeros do not change the value: int("007") is 7. */
  lemma {:induction false} LeadingZero(t: string)
    requires forall k :: 0 <= k < |t| ==> IsDigit(t[k])
    ensures DigitsValue(['0'] + t) == DigitsValue(t)
  {
    if t != [] {
      var u := ['0'] + t;
      assert u[..|u| - 1] == ['0'] + t[..|t| - 1];
      LeadingZero(t[..|t| - 1]);
    } else {
      assert (['0'] + t)[..0] == [];
    }
  }

  /** str() of a natural number, which DigitsValue reads back. */
  function NatToString(n: nat): (r: string)
    ensures |r| > 0 && forall k :: 0 <= k < |r| ==> IsDigit(r[k])
    ensures DigitsValue(r) == n
  {
    if n < 10 then ['0' + n as char]
    else
      var head := NatToString(n / 10);
      var r := head + ['0' + (n % 10) as char];
      assert r[..|r| - 1] == head;
      r
  }

  /** The pieces when the whole line is one "X of Y" between optional spaces. */
  function FullMatch(s: string): (r: Option<Spans>)
    ensures r.Some? ==>
              WellPlaced(s, r.value) && All(s, 0, r.value.openFrom, IsSpace) &&
              All(s, r.value.totalTo, |s|, IsSpace)
  {
    var lead := SkipWhile(s, 0, IsSpace);
    match MatchCounts(s, lead)
    case None => None
    case Some(m) => if SkipWhile(s, m.totalTo, IsSpace) == |s| then Some(m) else None
  }

  /** Any line made of spaces, a count and spaces is matched with exactly those pieces. */
  lemma FullMatchComplete(s: string, m: Spans)
    requires WellPlaced(s, m) && All(s, 0, m.openFrom, IsSpace) && All(s, m.totalTo, |s|, IsSpace)
    ensures FullMatch(s) == Some(m)
  {
    SkipWhileUnique(s, 0, m.openFrom, IsSpace);
    MatchCountsExact(s, m);
    SkipWhileUnique(s, m.totalTo, |s|, IsSpace);
  }

  /** parse_of_pair(s): None unless the whole line is an "X of Y". */
  function ParseOfPair(s: string): (r: Option<OfPair>)
    ensures r.Some? <==> FullMatch(s).Some?
    ensures r.Some? ==> r.value.raw == s
  {
    match FullMatch(s)
    case None => None
    case Some(m) =>
      Some(OfPair(s, DigitsValue(s[m.openFrom..m.openTo]), DigitsValue(s[m.totalFrom..m.totalTo])))
  }

  predicate AllSpaces(t: string) { forall k :: 0 <= k < |t| ==> IsSpace(t[k]) }

  predicate AllDigits(t: string) { forall k :: 0 <= k < |t| ==> IsDigit(t[k]) }

  /**
   * Every line of the form spaces, digits, spaces, "of", spaces, digits,
   * spaces parses, and to the two numbers written in it.
   */
  lemma {:induction false} ParseOfPairComplete(lead: string, x: string, gap1: string, gap2: string, y: string, trail: string)
    requires AllSpaces(lead) && AllSpaces(gap1) && AllSpaces(gap2) && AllSpaces(trail)
    requires AllDigits(x) && AllDigits(y) && |x| > 0 && |y| > 0 && |gap1| > 0 && |gap2| > 0
    ensures var s := lead + x + gap1 + "of" + gap2 + y + trail;
            ParseOfPair(s) == Some(OfPair(s, DigitsValue(x), DigitsValue(y)))
  {
    var s := lead + x + gap1 + "of" + gap2 + y + trail;
    var o := |lead|;
    var ot := o + |x|;
    var of := ot + |gap1|;
    var tf := of + 2 + |gap2|;
    var tt := tf + |y|;
    assert s[o..ot] == x;
    assert s[ot..of] == gap1;
    assert s[of..of + 2] == "of";
    assert s[of + 2..tf] == gap2;
    assert s[tf..tt] == y;
    assert s[tt..] == trail;
    assert s[..o] == lead;
    var m := Spans(o, ot, of, tf, tt);
    assert All(s, o, ot, IsDigit) by { forall k | o <= k < ot ensures IsDigit(s[k]) { assert s[k] == x[k - o]; } }
    assert All(s, ot, of, IsSpace) by { forall k | ot <= k < of ensures IsSpace(s[k]) { assert s[k] == gap1[k - ot]; } }
    assert All(s, of + 2, tf, IsSpace) by { forall k | of + 2 <= k < tf ensures IsSpace(s[k]) { assert s[k] == gap2[k - of - 2]; } }
    assert All(s, tf, tt, IsDigit) by { forall k | tf <= k < tt ensures IsDigit(s[k]) { assert s[k] == y[k - tf]; } }
    assert All(s, 0, o, IsSpace) by { forall k | 0 <= k < o ensures IsSpace(s[k]) { assert s[k] == lead[k]; } }
    assert All(s, tt, |s|, IsSpace) by { forall k | tt <= k < |s| ensures IsSpace(s[k]) { assert s[k] == trail[k - tt]; } }
    assert s[of] == 'o' && s[of + 1] == 'f';
    FullMatchComplete(s, m);
  }

  lemma SpelledOut(a: string, b: string)
    ensures [] + a + " " + "of" + " " + b + [] == a + " of " + b
  {
  }

  /** Writing two counts as "X of Y" and parsing the line gives them back. */
  lemma ParseOfPairRoundTrip(x: nat, y: nat)
    ensures var s := NatToString(x) + " of " + NatToString(y);
            ParseOfPair(s) == Some(OfPair(s, x, y))
  {
    var sx, sy := NatToString(x), NatToString(y);
    ParseOfPairComplete([], sx, " ", " ", sy, []);
    SpelledOut(sx, sy);
  }

  /**
   * A count line with words after it is taken as the lifts or trails line, but
   * it does not parse, so its count is stored as null.
   */
  lemma CountWithSuffixDoesNotParse()
    ensures StartsWithCount("2 of 11 lifts")
    ensures ParseOfPair("2 of 11 lifts") == None
  {
    var s := "2 of 11 lifts";
    var m := Spans(0, 1, 2, 5, 7);
    assert WellPlaced(s, m) by {
      assert IsSpace(s[1]) && IsSpace(s[4]);
    }
    MatchCountsExact(s, m);
    assert !IsSpace(s[0]) && !IsSpace(s[8]);
    SkipWhileUnique(s, 0, 0, IsSpace);
    SkipWhileUnique(s, 7, 8, IsSpace);
    assert FullMatch(s) == None;
  }

  // ---------------------------------------------------------------------
  // `\b(?:Jan|Feb|...|Dec)[a-z]*\b`, case-insensitive

  const MonthAbbreviations: seq<string> :=
    ["jan", "feb", "mar", "apr", "may", "jun", "jul", "aug", "sep", "oct", "nov", "dec"]

  /** A month abbreviation, in any case, starts at `i`. */
  predicate AbbreviationAt(s: string, i: nat)
  {
    i + 3 <= |s| && Lower(s[i..i + 3]) in MonthAbbreviations
  }

  /**
   * A word starting at `i` that begins with a month abbreviation: a word
   * boundary before it, the abbreviation in any case, letters, and a word
   * boundary after them.
   */
  predicate MonthAt(s: string, i: nat)
    requires i <= |s|
  {
    AbbreviationAt(s, i) && (i == 0 || !IsWordChar(s[i - 1])) &&
    var e := SkipWhile(s, i + 3, IsLetter);
    e == |s| || !IsWordChar(s[e])
  }

  /** re.search(month-word, s, re.I): the line holds a month abbreviation, in any case. */
  predicate MentionsMonth(s: string): (r: bool)
    ensures r ==> exists i :: 0 <= i <= |s| && AbbreviationAt(s, i)
  {
    exists i | 0 <= i <= |s| :: MonthAt(s, i)
  }

  /**
   * Every month word is found: an abbreviation in any case at a word start,
   * more letters, then the end of the line or a character outside `\w`.
   */
  lemma MonthComplete(s: string, i: nat, e: nat)
    requires i + 3 <= e <= |s|
    requires i == 0 || !IsWordChar(s[i - 1])
    requires Lower(s[i..i + 3]) in MonthAbbreviations
    requires All(s, i + 3, e, IsLetter)
    requires e == |s| || !IsWordChar(s[e])
    ensures MentionsMonth(s)
  {
    SkipWhileUnique(s, i + 3, e, IsLetter);
    assert MonthAt(s, i);
  }

  /** A date line in the page's format mentions a month. */
  lemma MonthExampleDate()
    ensures MentionsMonth("Nov 25 2025")
  {
    SkipWhileUnique("Nov 25 2025", 3, 3, IsLetter);
    assert "Nov 25 2025"[0..3] == "Nov";
    assert Lower("Nov") == "nov";
    assert !IsWordChar("Nov 25 2025"[3]);
    assert MonthAt("Nov 25 2025", 0);
  }

  /** A full month name in capitals, after another word, mentions a month. */
  lemma MonthExampleFullName()
    ensures MentionsMonth("Updated DECEMBER 1")
  {
    SkipWhileUnique("Updated DECEMBER 1", 11, 16, IsLetter);
    assert "Updated DECEMBER 1"[8..11] == "DEC";
    assert Lower("DEC") == "dec";
    assert MonthAt("Updated DECEMBER 1", 8);
  }

  /** A month glued to a digit has no word boundary after it. */
  lemma MonthNeedsWordBoundary()
    ensures !MonthAt("Nov25", 0)
  {
    SkipWhileUnique("Nov25", 3, 3, IsLetter);
  }
}
