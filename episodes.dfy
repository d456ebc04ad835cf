/**
 * AccumulationEngine, the specification side: the rise of a depth series since
 * the start of its current episode, an episode being a run of strictly
 * increasing values. Both accumulation loops of the snow scripts are proved to
 * emit exactly this quantity.
 */
module Episodes {

  /** First index of the strictly increasing run that ends at `i`. */
  function RunStart(d: seq<real>, i: nat): (r: nat)
    requires i < |d|
    ensures r <= i
    ensures forall k :: r < k <= i ==> d[k - 1] < d[k]
    ensures r == 0 || d[r] <= d[r - 1]
  {
    if i == 0 || d[i] <= d[i - 1] then i else RunStart(d, i - 1)
  }

  /** How much `d` has risen since its current episode began. */
  function Episode(d: seq<real>, i: nat): (r: real)
    requires i < |d|
  {
    d[i] - d[RunStart(d, i)]
  }

  lemma {:induction false} RunRises(d: seq<real>, s: nat, i: nat)
    requires s <= i < |d|
    requires forall k :: s < k <= i ==> d[k - 1] < d[k]
    ensures d[s] <= d[i]
    ensures s < i ==> d[s] < d[i]
  {
    if s < i {
      RunRises(d, s, i - 1);
    }
  }

  /**
   * The recurrence both loops follow: 0 at the first index and after any
   * non-increasing step, otherwise the previous output plus the increment.
   */
  lemma {:induction false} EpisodeStep(d: seq<real>, i: nat)
    requires i < |d|
    ensures Episode(d, i) >= 0.0
    ensures i == 0 ==> Episode(d, i) == 0.0
    ensures i > 0 && d[i] <= d[i - 1] ==> Episode(d, i) == 0.0
    ensures i > 0 && d[i] > d[i - 1] ==> Episode(d, i) == Episode(d, i - 1) + (d[i] - d[i - 1])
    ensures i > 0 && d[i] > d[i - 1] ==> Episode(d, i) > Episode(d, i - 1)
  {
    RunRises(d, RunStart(d, i), i);
    if i > 0 && d[i] > d[i - 1] {
      RunRises(d, RunStart(d, i - 1), i - 1);
    }
  }

  /** Within one strictly increasing run the output never decreases. */
  lemma {:induction false} EpisodeMonotoneInRun(d: seq<real>, j: nat, i: nat)
    requires j <= i < |d|
    requires forall k :: j < k <= i ==> d[k - 1] < d[k]
    ensures Episode(d, j) <= Episode(d, i)
  {
    if j < i {
      EpisodeMonotoneInRun(d, j, i - 1);
      EpisodeStep(d, i);
    }
  }

  /** The storm-total example: [10, 10, 12, 11, 13, 14] gives [0, 0, 2, 0, 2, 3]. */
  lemma EpisodeExample()
    ensures var d := [10.0, 10.0, 12.0, 11.0, 13.0, 14.0];
            Episode(d, 0) == 0.0 && Episode(d, 1) == 0.0 && Episode(d, 2) == 2.0 &&
            Episode(d, 3) == 0.0 && Episode(d, 4) == 2.0 && Episode(d, 5) == 3.0
  {
  }
}
