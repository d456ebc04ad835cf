/**
 * Small shared vocabulary of the Whiteface forecast pipeline: optional values,
 * results carrying the reason a forecast step was given up, and generic
 * first-match / filter functions over sequences.
 */
module Common {

  datatype Option<+T> = None | Some(value: T)

  /** Why one extraction step failed; every such failure makes the step be skipped. */
  datatype Failure =
    | NoVariables           // list(ds.data_vars.keys())[0] on an empty dataset
    | MissingVariable       // ds[name] with no such variable
    | UnexpectedGridDims    // lat/lon arrays neither both 1-D nor both 2-D
    | GridShapeMismatch     // 2-D lat/lon arrays of different shapes
    | EmptyGrid             // argmin of an empty array
    | NotAScalar            // index out of range, or the indexed value is not one number
    | MergeFailed           // the two precipitation files could not be merged

  datatype Result<+T> = Ok(value: T) | Err(error: Failure) {
    predicate IsFailure() { Err? }
    function PropagateFailure<U>(): Result<U> requires Err? { Err(error) }
    function Extract(): T requires Ok? { value }
  }

  function Max(a: real, b: real): (r: real)
    ensures r >= a && r >= b && (r == a || r == b)
  {
    if a >= b then a else b
  }

  function Abs(x: real): (r: real)
    ensures r >= 0.0 && (r == x || r == -x)
  {
    if x < 0.0 then -x else x
  }

  /** Index of the first element satisfying `p`, as a `for ... : if p(x): return` loop finds it. */
  function FirstIndex<T>(s: seq<T>, p: T -> bool): (r: Option<nat>)
    ensures r.Some? ==> r.value < |s| && p(s[r.value])
    ensures r.Some? ==> forall j :: 0 <= j < r.value ==> !p(s[j])
    ensures r.None? ==> forall j :: 0 <= j < |s| ==> !p(s[j])
  {
    if s == [] then None
    else if p(s[0]) then Some(0)
    else match FirstIndex(s[1..], p)
      case None => None
      case Some(k) => Some(k + 1)
  }

  /** An index is the first match exactly when it matches and nothing before it does. */
  lemma {:induction false} FirstIndexIs<T>(s: seq<T>, p: T -> bool, i: nat)
    requires i < |s| && p(s[i])
    requires forall j :: 0 <= j < i ==> !p(s[j])
    ensures FirstIndex(s, p) == Some(i)
  {
    if i > 0 {
      FirstIndexIs(s[1..], p, i - 1);
    }
  }

  /** The elements of `s` that satisfy `p`, in their original order. */
  function Filter<T(!new)>(s: seq<T>, p: T -> bool): (r: seq<T>)
    ensures |r| <= |s|
  {
    if s == [] then []
    else Filter(s[..|s| - 1], p) + (if p(s[|s| - 1]) then [s[|s| - 1]] else [])
  }

  /** Filter keeps exactly the elements that pass. */
  lemma {:induction false} FilterMembers<T(!new)>(s: seq<T>, p: T -> bool)
    ensures forall x :: x in Filter(s, p) <==> x in s && p(x)
  {
    if s != [] {
      var init := s[..|s| - 1];
      FilterMembers(init, p);
      assert s == init + [s[|s| - 1]];
    }
  }

  predicate NoDuplicates<T(==)>(s: seq<T>) {
    forall i, j :: 0 <= i < j < |s| ==> s[i] != s[j]
  }

  lemma {:induction false} FilterPrefix<T(!new)>(s: seq<T>, p: T -> bool, i: nat)
    requires i < |s|
    ensures Filter(s[..i + 1], p) == Filter(s[..i], p) + (if p(s[i]) then [s[i]] else [])
  {
    assert s[..i + 1][..i] == s[..i];
  }

  /** Filtering a sequence without repeats leaves none. */
  lemma {:induction false} FilterNoDuplicates<T(!new)>(s: seq<T>, p: T -> bool)
    requires NoDuplicates(s)
    ensures NoDuplicates(Filter(s, p))
  {
    if s != [] {
      var init := s[..|s| - 1];
      assert NoDuplicates(init);
      FilterNoDuplicates(init, p);
      FilterMembers(init, p);
      assert s[|s| - 1] !in init;
    }
  }

  /** Filtering a concatenation filters each part. */
  lemma {:induction false} FilterConcat<T(!new)>(a: seq<T>, b: seq<T>, p: T -> bool)
    ensures Filter(a + b, p) == Filter(a, p) + Filter(b, p)
  {
    if b == [] {
      assert a + b == a;
    } else {
      var init, last := b[..|b| - 1], b[|b| - 1];
      var tail := if p(last) then [last] else [];
      var ab := a + b;
      assert ab[..|ab| - 1] == a + init && ab[|ab| - 1] == last;
      assert Filter(ab, p) == Filter(a + init, p) + tail;
      FilterConcat(a, init, p);
      assert Filter(b, p) == Filter(init, p) + tail;
    }
  }

  /** No passing element, nothing kept. */
  lemma {:induction false} FilterNone<T(!new)>(s: seq<T>, p: T -> bool)
    requires forall j :: 0 <= j < |s| ==> !p(s[j])
    ensures Filter(s, p) == []
  {
    if s != [] {
      FilterNone(s[..|s| - 1], p);
    }
  }

  /**
   * Filter read front to back: nothing when no element passes, otherwise the
   * first passing element followed by the filtered remainder after it. So the
   * result keeps the original order.
   */
  lemma FilterFromFirst<T(!new)>(s: seq<T>, p: T -> bool)
    ensures FirstIndex(s, p).None? ==> Filter(s, p) == []
    ensures FirstIndex(s, p).Some? ==>
              var k := FirstIndex(s, p).value;
              Filter(s, p) == [s[k]] + Filter(s[k + 1..], p)
  {
    match FirstIndex(s, p)
    case None =>
      FilterNone(s, p);
    case Some(k) =>
      assert s == s[..k] + ([s[k]] + s[k + 1..]);
      FilterNone(s[..k], p);
      FilterConcat(s[..k], [s[k]] + s[k + 1..], p);
      FilterConcat([s[k]], s[k + 1..], p);
      assert [s[k]][..0] == [];
      assert Filter([s[k]], p) == [s[k]];
  }

  /** The first two elements a filter keeps are the first match and the first match after it. */
  lemma FilterFirstTwo<T(!new)>(s: seq<T>, p: T -> bool)
    ensures match FirstIndex(s, p)
            case None => Filter(s, p) == []
            case Some(k) =>
              |Filter(s, p)| > 0 && Filter(s, p)[0] == s[k] &&
              match FirstIndex(s[k + 1..], p)
              case None => |Filter(s, p)| == 1
              case Some(m) => |Filter(s, p)| > 1 && Filter(s, p)[1] == s[k + 1 + m]
  {
    FilterFromFirst(s, p);
    match FirstIndex(s, p)
    case None =>
    case Some(k) =>
      FilterFromFirst(s[k + 1..], p);
  }
}
