/**
 * Tie-point bookkeeping of the render script (scripts/6a-render-model.py):
 * the elevation statistics of the matches seen by the first image group, the
 * two-sigma selection of surface samples, the per-image elevation lists and their
 * statistics, and the detection and ordering of outlier matches.
 *
 * Standard deviations are never formed: a Spread keeps the mean and the population
 * variance, and each comparison against k standard deviations is made on squares.
 */
module TiePoints {
  import opened Base
  import opened Stats

  /** One observation p of a match: p[0] is the image index, p[1] the pixel. */
  datatype Observation = Observation(image: nat, u: real, v: real)

  /** A match [ned, p1, p2, ...]: a reconstructed NED point and the observations of it. */
  datatype Match = Match(ned: Vec3, obs: seq<Observation>)

  /** The mean and the variance (np.std squared) of a set of elevations. */
  datatype Spread = Spread(avg: real, variance: real)

  /** Every observation names an image of the project. */
  predicate Indexed(ms: seq<Match>, count: nat) {
    forall i, j :: 0 <= i < |ms| && 0 <= j < |ms[i].obs| ==> ms[i].obs[j].image < count
  }

  /** An image of the project: its size, and the fields the render script assigns. */
  class Image {
    /** image.width and image.height, in pixels */
    const width: nat
    const height: nat
    /** image.z_list */
    var zList: seq<real>
    /** image.z_avg and image.z_std (as its square), both None when z_list is empty */
    var zStats: Option<Spread>
    /** image.grid_list */
    var gridList: seq<Vec3>

    constructor (width: nat, height: nat)
      ensures this.width == width && this.height == height
      ensures zList == [] && zStats == None && gridList == []
    {
      this.width, this.height := width, height;
      zList, zStats, gridList := [], None, [];
    }
  }

  predicate Distinct(images: seq<Image>) {
    forall a, b :: 0 <= a < b < |images| ==> images[a] != images[b]
  }

  // ---------------------------------------------------------------------------
  // Group elevation statistics and the surface samples

  /** Some observation of the match comes from an image of the group. */
  predicate UsedByGroup(m: Match, group: seq<nat>) {
    exists j :: 0 <= j < |m.obs| && m.obs[j].image in group
  }

  /** The points of the group-used matches, in match order. */
  function UsedPoints(ms: seq<Match>, group: seq<nat>): seq<Vec3>
  {
    if ms == [] then []
    else
      var m := ms[|ms| - 1];
      UsedPoints(ms[..|ms| - 1], group) + (if UsedByGroup(m, group) then [m.ned] else [])
  }

  function Elevations(ps: seq<Vec3>): (zs: seq<real>)
    ensures |zs| == |ps| && forall i :: 0 <= i < |ps| ==> zs[i] == ps[i].z
  {
    seq(|ps|, i requires 0 <= i < |ps| => ps[i].z)
  }

  /** np.mean and np.std of the samples; None where numpy would give nan (no samples). */
  function SpreadOf(zs: seq<real>): (st: Option<Spread>)
    ensures st.Some? <==> |zs| > 0
  {
    if |zs| == 0 then None else Some(Spread(Mean(zs), Variance(zs)))
  }

  /** `abs(z - zavg) <= 2 * zstd`, false against nan. */
  predicate WithinTwoSigma(z: real, st: Option<Spread>) {
    st.Some? && (z - st.value.avg) * (z - st.value.avg) <= 4.0 * st.value.variance
  }

  /** The squared form is the source's test for the standard deviation that belongs to the variance. */
  lemma WithinTwoSigmaIff(z: real, s: Spread, std: real)
    requires IsStd(std, s.variance)
    ensures WithinTwoSigma(z, Some(s)) <==> Abs(z - s.avg) <= 2.0 * std
  {
    var d := Abs(z - s.avg);
    SquareMonotone(d, 2.0 * std);
    assert d * d == (z - s.avg) * (z - s.avg);
    assert (2.0 * std) * (2.0 * std) == 4.0 * (std * std);
  }

  /** The points the fit uses: group-used matches within two standard deviations, in match order. */
  function FitPoints(ms: seq<Match>, group: seq<nat>, st: Option<Spread>): seq<Vec3>
  {
    if ms == [] then []
    else
      var m := ms[|ms| - 1];
      FitPoints(ms[..|ms| - 1], group, st) +
        (if UsedByGroup(m, group) && WithinTwoSigma(m.ned.z, st) then [m.ned] else [])
  }

  /** Whether some observation of the match comes from the group (the `used` flag loop). */
  method IsUsed(m: Match, group: seq<nat>) returns (used: bool)
    ensures used <==> UsedByGroup(m, group)
  {
    used := false;
    var j := 0;
    while j < |m.obs|
      invariant 0 <= j <= |m.obs|
      invariant used <==> exists j' :: 0 <= j' < j && m.obs[j'].image in group
    {
      if m.obs[j].image in group {
        used := true;
      }
      j := j + 1;
    }
  }

  /** The list `z` of the first statistics loop: the elevation of every group-used match. */
  method GroupElevations(ms: seq<Match>, group: seq<nat>) returns (z: seq<real>)
    ensures z == Elevations(UsedPoints(ms, group))
  {
    z := [];
    var i := 0;
    while i < |ms|
      invariant 0 <= i <= |ms|
      invariant z == Elevations(UsedPoints(ms[..i], group))
    {
      assert ms[..i + 1][..i] == ms[..i];
      var used := IsUsed(ms[i], group);
      if used {
        z := z + [ms[i].ned.z];
      }
      i := i + 1;
    }
    assert ms[..i] == ms;
  }

  /** The surface-building loop: xfit, yfit and zfit, index-aligned in match order. */
  method SurfaceSamples(ms: seq<Match>, group: seq<nat>, st: Option<Spread>)
    returns (xfit: seq<real>, yfit: seq<real>, zfit: seq<real>)
    ensures |xfit| == |yfit| == |zfit| == |FitPoints(ms, group, st)|
    ensures forall k :: 0 <= k < |xfit| ==>
      Vec3(xfit[k], yfit[k], zfit[k]) == FitPoints(ms, group, st)[k]
  {
    xfit, yfit, zfit := [], [], [];
    var i := 0;
    while i < |ms|
      invariant 0 <= i <= |ms|
      invariant |xfit| == |yfit| == |zfit| == |FitPoints(ms[..i], group, st)|
      invariant forall k :: 0 <= k < |xfit| ==> Vec3(xfit[k], yfit[k], zfit[k]) == FitPoints(ms[..i], group, st)[k]
    {
      assert ms[..i + 1][..i] == ms[..i];
      var used := IsUsed(ms[i], group);
      if used {
        var ned := ms[i].ned;
        if WithinTwoSigma(ned.z, st) {
          xfit, yfit, zfit := xfit + [ned.x], yfit + [ned.y], zfit + [ned.z];
        }
      }
      i := i + 1;
    }
    assert ms[..i] == ms;
  }

  /** Reference definition: the points of a sequence that lie within two standard deviations. */
  function KeepWithin(ps: seq<Vec3>, st: Option<Spread>): seq<Vec3>
  {
    if ps == [] then []
    else (if WithinTwoSigma(ps[0].z, st) then [ps[0]] else []) + KeepWithin(ps[1..], st)
  }

  lemma {:induction false} KeepWithinAppend(ps: seq<Vec3>, p: Vec3, st: Option<Spread>)
    ensures KeepWithin(ps + [p], st) == KeepWithin(ps, st) + (if WithinTwoSigma(p.z, st) then [p] else [])
  {
    if ps != [] {
      assert (ps + [p])[1..] == ps[1..] + [p];
      KeepWithinAppend(ps[1..], p, st);
    }
  }

  lemma {:induction false} KeepWithinMembers(ps: seq<Vec3>, st: Option<Spread>)
    ensures forall p :: p in KeepWithin(ps, st) <==> p in ps && WithinTwoSigma(p.z, st)
  {
    if ps != [] {
      KeepWithinMembers(ps[1..], st);
      assert ps == [ps[0]] + ps[1..];
    }
  }

  /**
   * The fit set is the group-used points with the two-sigma test applied, in match order:
   * a point is in it exactly when it is group-used and within two standard deviations.
   */
  lemma {:induction false} FitPointsAreFilteredUsedPoints(ms: seq<Match>, group: seq<nat>, st: Option<Spread>)
    ensures FitPoints(ms, group, st) == KeepWithin(UsedPoints(ms, group), st)
    ensures forall p :: p in FitPoints(ms, group, st) <==> p in UsedPoints(ms, group) && WithinTwoSigma(p.z, st)
  {
    if ms != [] {
      var init := ms[..|ms| - 1];
      var m := ms[|ms| - 1];
      FitPointsAreFilteredUsedPoints(init, group, st);
      if UsedByGroup(m, group) {
        KeepWithinAppend(UsedPoints(init, group), m.ned, st);
      } else {
        assert UsedPoints(ms, group) == UsedPoints(init, group);
        assert FitPoints(ms, group, st) == FitPoints(init, group, st);
      }
    }
    KeepWithinMembers(UsedPoints(ms, group), st);
  }

  /** The used points are exactly the points of the matches some group image observes. */
  lemma {:induction false} UsedPointsMembers(ms: seq<Match>, group: seq<nat>)
    ensures forall p :: p in UsedPoints(ms, group) <==>
      exists i :: 0 <= i < |ms| && UsedByGroup(ms[i], group) && ms[i].ned == p
  {
    if ms != [] {
      var init := ms[..|ms| - 1];
      UsedPointsMembers(init, group);
      forall p | p in UsedPoints(ms, group)
        ensures exists i :: 0 <= i < |ms| && UsedByGroup(ms[i], group) && ms[i].ned == p
      {
        if p in UsedPoints(init, group) {
          var i :| 0 <= i < |init| && UsedByGroup(init[i], group) && init[i].ned == p;
          assert ms[i] == init[i];
        }
      }
      forall i | 0 <= i < |ms| && UsedByGroup(ms[i], group) ensures ms[i].ned in UsedPoints(ms, group) {
        if i < |init| {
          assert init[i] == ms[i];
        }
      }
    }
  }

  function MinOf(s: seq<real>): (m: real)
    requires |s| > 0
    ensures forall i :: 0 <= i < |s| ==> m <= s[i]
    ensures exists i :: 0 <= i < |s| && s[i] == m
  {
    if |s| == 1 then s[0]
    else
      var m := MinOf(s[..|s| - 1]);
      if s[|s| - 1] < m then s[|s| - 1] else m
  }

  /** Some sample lies within one standard deviation of the mean. */
  lemma SomeSampleNearMean(zs: seq<real>) returns (i: nat)
    requires |zs| > 0
    ensures i < |zs|
    ensures (zs[i] - Mean(zs)) * (zs[i] - Mean(zs)) <= Variance(zs)
  {
    var d := SquaredDeviations(zs, Mean(zs));
    var lo := MinOf(d);
    MeanBounds(d, lo, MaxOf(d));
    i :| 0 <= i < |d| && d[i] == lo;
  }

  lemma NearMeanIsWithin(z: real, zs: seq<real>)
    requires |zs| > 0
    requires (z - Mean(zs)) * (z - Mean(zs)) <= Variance(zs)
    ensures WithinTwoSigma(z, SpreadOf(zs))
  {
    VarianceNonNegative(zs);
    var st := SpreadOf(zs).value;
    var d := (z - st.avg) * (z - st.avg);
    assert d <= st.variance && 0.0 <= st.variance;
  }

  /**
   * The fit never loses every sample: when the group observes any match, the sample
   * closest to the mean lies within one standard deviation, so within two.
   */
  lemma FitPointsNonEmpty(ms: seq<Match>, group: seq<nat>)
    requires UsedPoints(ms, group) != []
    ensures FitPoints(ms, group, SpreadOf(Elevations(UsedPoints(ms, group)))) != []
  {
    var used := UsedPoints(ms, group);
    var st := SpreadOf(Elevations(used));
    FitPointsAreFilteredUsedPoints(ms, group, st);
    SomeSampleKept(used);
  }

  /** Filtering samples against their own mean and spread keeps at least one. */
  lemma SomeSampleKept(used: seq<Vec3>)
    requires used != []
    ensures KeepWithin(used, SpreadOf(Elevations(used))) != []
  {
    var zs := Elevations(used);
    var st := SpreadOf(zs);
    var i := SomeSampleNearMean(zs);
    NearMeanIsWithin(zs[i], zs);
    KeepWithinMembers(used, st);
    assert used[i] in KeepWithin(used, st);
  }

  // ---------------------------------------------------------------------------
  // Per-image elevation lists

  /** How many observations of the list come from image k. */
  function ObsCount(obs: seq<Observation>, k: nat): nat
  {
    if obs == [] then 0
    else ObsCount(obs[..|obs| - 1], k) + (if obs[|obs| - 1].image == k then 1 else 0)
  }

  /** How many observations of all matches come from image k. */
  function TotalObs(ms: seq<Match>, k: nat): nat
  {
    if ms == [] then 0 else TotalObs(ms[..|ms| - 1], k) + ObsCount(ms[|ms| - 1].obs, k)
  }

  function Repeat(x: real, n: nat): (r: seq<real>)
    ensures |r| == n && forall i :: 0 <= i < n ==> r[i] == x
  {
    seq(n, _ => x)
  }

  /** image.z_list of image k after the accumulation loop: -z once per observation, in match order. */
  function ZList(ms: seq<Match>, k: nat): seq<real>
  {
    if ms == [] then []
    else
      var m := ms[|ms| - 1];
      ZList(ms[..|ms| - 1], k) + Repeat(-m.ned.z, ObsCount(m.obs, k))
  }

  lemma ObsCountStep(obs: seq<Observation>, p: nat, k: nat)
    requires p < |obs|
    ensures ObsCount(obs[..p + 1], k) == ObsCount(obs[..p], k) + (if obs[p].image == k then 1 else 0)
  {
    assert obs[..p + 1][..p] == obs[..p];
  }

  /** The inner accumulation loop: -z appended to the list of each observing image. */
  method AppendElevation(images: seq<Image>, obs: seq<Observation>, x: real)
    requires Distinct(images)
    requires forall j :: 0 <= j < |obs| ==> obs[j].image < |images|
    modifies set k | 0 <= k < |images| :: images[k]
    ensures forall k :: 0 <= k < |images| ==>
      && images[k].zList == old(images[k].zList) + Repeat(x, ObsCount(obs, k))
      && images[k].gridList == old(images[k].gridList) && images[k].zStats == old(images[k].zStats)
  {
    var p := 0;
    while p < |obs|
      invariant 0 <= p <= |obs|
      invariant forall k :: 0 <= k < |images| ==>
        && images[k].zList == old(images[k].zList) + Repeat(x, ObsCount(obs[..p], k))
        && images[k].gridList == old(images[k].gridList) && images[k].zStats == old(images[k].zStats)
    {
      forall k | 0 <= k < |images| {
        ObsCountStep(obs, p, k);
      }
      var index := obs[p].image;
      images[index].zList := images[index].zList + [x];
      p := p + 1;
    }
    assert obs[..p] == obs;
  }

  /**
   * Resets z_list and grid_list of every image, then appends -z of every match to the
   * list of every image that observes it, whatever its group.
   */
  method AccumulateElevations(images: seq<Image>, ms: seq<Match>)
    requires Distinct(images)
    requires Indexed(ms, |images|)
    modifies set k | 0 <= k < |images| :: images[k]
    ensures forall k :: 0 <= k < |images| ==>
      images[k].zList == ZList(ms, k) && images[k].gridList == [] && images[k].zStats == old(images[k].zStats)
  {
    var k := 0;
    while k < |images|
      invariant 0 <= k <= |images|
      invariant forall j :: 0 <= j < k ==> images[j].zList == [] && images[j].gridList == []
      invariant forall j :: 0 <= j < |images| ==> images[j].zStats == old(images[j].zStats)
    {
      images[k].zList := [];
      images[k].gridList := [];
      k := k + 1;
    }
    var i := 0;
    while i < |ms|
      invariant 0 <= i <= |ms|
      invariant forall j :: 0 <= j < |images| ==>
        images[j].zList == ZList(ms[..i], j) && images[j].gridList == [] && images[j].zStats == old(images[j].zStats)
    {
      assert ms[..i + 1][..i] == ms[..i];
      AppendElevation(images, ms[i].obs, -ms[i].ned.z);
      i := i + 1;
    }
    assert ms[..i] == ms;
  }

  /** Sets z_avg and z_std of every image from its own list: None for an empty list. */
  method ImageStatistics(images: seq<Image>)
    requires Distinct(images)
    modifies set k | 0 <= k < |images| :: images[k]
    ensures forall k :: 0 <= k < |images| ==>
      && images[k].zStats == SpreadOf(images[k].zList)
      && images[k].zList == old(images[k].zList) && images[k].gridList == old(images[k].gridList)
  {
    var k := 0;
    while k < |images|
      invariant 0 <= k <= |images|
      invariant forall j :: 0 <= j < |images| ==>
        images[j].zList == old(images[j].zList) && images[j].gridList == old(images[j].gridList)
      invariant forall j :: 0 <= j < k ==> images[j].zStats == SpreadOf(images[j].zList)
    {
      var image := images[k];
      if |image.zList| > 0 {
        image.zStats := Some(Spread(Mean(image.zList), Variance(image.zList)));
      } else {
        image.zStats := None;
      }
      k := k + 1;
    }
  }

  lemma {:induction false} ObsCountMembers(obs: seq<Observation>, k: nat)
    ensures ObsCount(obs, k) <= |obs|
    ensures ObsCount(obs, k) > 0 <==> exists j :: 0 <= j < |obs| && obs[j].image == k
  {
    if obs != [] {
      var init := obs[..|obs| - 1];
      ObsCountMembers(init, k);
      if exists j :: 0 <= j < |obs| && obs[j].image == k {
        var j :| 0 <= j < |obs| && obs[j].image == k;
        if j < |init| { assert init[j] == obs[j]; }
      }
      if exists j :: 0 <= j < |init| && init[j].image == k {
        var j :| 0 <= j < |init| && init[j].image == k;
        assert obs[j] == init[j];
      }
    }
  }

  lemma {:induction false} ZListLength(ms: seq<Match>, k: nat)
    ensures |ZList(ms, k)| == TotalObs(ms, k)
  {
    if ms != [] {
      ZListLength(ms[..|ms| - 1], k);
    }
  }

  lemma ZListStep(ms: seq<Match>, k: nat, x: real)
    requires ms != []
    ensures x in ZList(ms, k) <==>
      x in ZList(ms[..|ms| - 1], k) || (ObsCount(ms[|ms| - 1].obs, k) > 0 && x == -ms[|ms| - 1].ned.z)
  {
    var m := ms[|ms| - 1];
    var rep := Repeat(-m.ned.z, ObsCount(m.obs, k));
    var front := ZList(ms[..|ms| - 1], k);
    assert ZList(ms, k) == front + rep;
    RepeatMembers(-m.ned.z, ObsCount(m.obs, k), x);
    assert x in front + rep <==> x in front || x in rep;
  }

  lemma RepeatMembers(x: real, n: nat, y: real)
    ensures y in Repeat(x, n) <==> n > 0 && y == x
  {
    if n > 0 {
      assert Repeat(x, n)[0] == x;
    }
  }

  /** Observes(ms, k, x): some match image k observes has elevation -x. */
  predicate Observes(ms: seq<Match>, k: nat, x: real) {
    exists i :: 0 <= i < |ms| && ObsCount(ms[i].obs, k) > 0 && x == -ms[i].ned.z
  }

  /**
   * Each image's list holds one entry per observation of it, each the negated elevation of
   * a match it observes; every match it observes contributes.
   */
  lemma {:induction false} ZListCharacterised(ms: seq<Match>, k: nat)
    ensures |ZList(ms, k)| == TotalObs(ms, k)
    ensures forall x :: x in ZList(ms, k) <==> Observes(ms, k, x)
  {
    ZListLength(ms, k);
    if ms != [] {
      var init := ms[..|ms| - 1];
      var m := ms[|ms| - 1];
      ZListCharacterised(init, k);
      forall x ensures x in ZList(ms, k) <==> Observes(ms, k, x) {
        ZListStep(ms, k, x);
        if Observes(init, k, x) {
          var i :| 0 <= i < |init| && ObsCount(init[i].obs, k) > 0 && x == -init[i].ned.z;
          assert ms[i] == init[i];
        }
        if Observes(ms, k, x) {
          var i :| 0 <= i < |ms| && ObsCount(ms[i].obs, k) > 0 && x == -ms[i].ned.z;
          if i < |init| {
            assert init[i] == ms[i];
          }
        }
      }
    }
  }

  /** An image has statistics exactly when some observation comes from it. */
  lemma ImageStatsPresentIff(ms: seq<Match>, k: nat)
    ensures SpreadOf(ZList(ms, k)).Some? <==> TotalObs(ms, k) > 0
  {
    ZListCharacterised(ms, k);
  }

  /** Every image that observes some match has statistics. */
  lemma {:induction false} ObserversHaveStats(ms: seq<Match>, i: nat, j: nat)
    requires i < |ms| && j < |ms[i].obs|
    ensures SpreadOf(ZList(ms, ms[i].obs[j].image)).Some?
  {
    var k := ms[i].obs[j].image;
    ObsCountMembers(ms[i].obs, k);
    ZListCharacterised(ms, k);
    assert Observes(ms, k, -ms[i].ned.z);
  }

  // ---------------------------------------------------------------------------
  // Outliers

  /** An entry [error_sum, i] of the outlier list. */
  datatype Outlier = Outlier(errorSum: real, index: nat)

  /** A name the loop uses is unbound (NameError), or an image it reads has no statistics (TypeError on None). */
  datatype StatFault = NoImageBound | NoStats(image: nat)

  /** error_sum: the summed distance of -z from the mean of each observing image. */
  function ErrorSum(z: real, obs: seq<Observation>, stats: seq<Option<Spread>>): Result<real, StatFault>
    requires forall j :: 0 <= j < |obs| ==> obs[j].image < |stats|
  {
    if obs == [] then Ok(0.0)
    else
      var before :- ErrorSum(z, obs[..|obs| - 1], stats);
      var image := obs[|obs| - 1].image;
      if stats[image].None? then Err(NoStats(image))
      else Ok(before + Abs(-z - stats[image].value.avg))
  }

  lemma {:induction false} ErrorSumNonNegative(z: real, obs: seq<Observation>, stats: seq<Option<Spread>>)
    requires forall j :: 0 <= j < |obs| ==> obs[j].image < |stats|
    ensures ErrorSum(z, obs, stats).Ok? ==> ErrorSum(z, obs, stats).value >= 0.0
  {
    if obs != [] {
      ErrorSumNonNegative(z, obs[..|obs| - 1], stats);
    }
  }

  /** `error_sum > 3 * (z_std * n)`, on squares. */
  predicate Flagged(errorSum: real, variance: real, n: nat) {
    errorSum * errorSum > 9.0 * variance * ((n * n) as real)
  }

  /** For a non-negative error sum, the squared test is the source's test. */
  lemma FlaggedIff(errorSum: real, variance: real, std: real, n: nat)
    requires errorSum >= 0.0 && IsStd(std, variance)
    ensures Flagged(errorSum, variance, n) <==> errorSum > 3.0 * (std * (n as real))
  {
    var t := 3.0 * (std * (n as real));
    assert t >= 0.0;
    SquareMonotone(t, errorSum);
    assert t * t == 9.0 * (std * std) * ((n as real) * (n as real));
    assert ((n * n) as real) == (n as real) * (n as real);
  }

  /** The state the outlier loop carries: the list so far and the image `image` names. */
  datatype Scan = Scan(outliers: seq<Outlier>, image: Option<nat>)

  /** The loop body for match i. */
  function ScanMatch(m: Match, i: nat, image: Option<nat>, stats: seq<Option<Spread>>): Result<Scan, StatFault>
    requires forall j :: 0 <= j < |m.obs| ==> m.obs[j].image < |stats|
    requires image.Some? ==> image.value < |stats|
  {
    var errorSum :- ErrorSum(m.ned.z, m.obs, stats);
    var last := if m.obs == [] then image else Some(m.obs[|m.obs| - 1].image);
    if last.None? then Err(NoImageBound)
    else if stats[last.value].None? then Err(NoStats(last.value))
    else if Flagged(errorSum, stats[last.value].value.variance, |m.obs|) then
      Ok(Scan([Outlier(errorSum, i)], last))
    else Ok(Scan([], last))
  }

  /** The scan after one more match. */
  function Extend(before: Result<Scan, StatFault>, m: Match, i: nat, stats: seq<Option<Spread>>): (r: Result<Scan, StatFault>)
    requires forall j :: 0 <= j < |m.obs| ==> m.obs[j].image < |stats|
    requires before.Ok? && before.value.image.Some? ==> before.value.image.value < |stats|
    ensures r.Ok? && r.value.image.Some? ==> r.value.image.value < |stats|
  {
    var b :- before;
    var step :- ScanMatch(m, i, b.image, stats);
    Ok(Scan(b.outliers + step.outliers, step.image))
  }

  /** The outlier loop over the given matches, starting with `image` bound as given. */
  function ScanAll(ms: seq<Match>, image: Option<nat>, stats: seq<Option<Spread>>): (r: Result<Scan, StatFault>)
    requires Indexed(ms, |stats|)
    requires image.Some? ==> image.value < |stats|
    ensures r.Ok? && r.value.image.Some? ==> r.value.image.value < |stats|
  {
    if ms == [] then Ok(Scan([], image))
    else
      assert Indexed(ms[..|ms| - 1], |stats|) by { IndexedPrefix(ms, |ms| - 1, |stats|); }
      Extend(ScanAll(ms[..|ms| - 1], image, stats), ms[|ms| - 1], |ms| - 1, stats)
  }

  lemma IndexedPrefix(ms: seq<Match>, n: nat, count: nat)
    requires Indexed(ms, count) && n <= |ms|
    ensures Indexed(ms[..n], count)
  {
    forall i, j | 0 <= i < n && 0 <= j < |ms[..n][i].obs| ensures ms[..n][i].obs[j].image < count {
      assert ms[..n][i] == ms[i];
    }
  }

  /** What the outlier loop leaves behind: the outlier list, or the exception it raises. */
  function OutliersOf(ms: seq<Match>, image: Option<nat>, stats: seq<Option<Spread>>): Result<seq<Outlier>, StatFault>
    requires Indexed(ms, |stats|)
    requires image.Some? ==> image.value < |stats|
  {
    var scan :- ScanAll(ms, image, stats);
    Ok(scan.outliers)
  }

  lemma ScanPrefix(ms: seq<Match>, n: nat, image: Option<nat>, stats: seq<Option<Spread>>)
    requires Indexed(ms, |stats|)
    requires image.Some? ==> image.value < |stats|
    requires n < |ms|
    ensures Indexed(ms[..n], |stats|) && Indexed(ms[..n + 1], |stats|)
    ensures ScanAll(ms[..n + 1], image, stats) == Extend(ScanAll(ms[..n], image, stats), ms[n], n, stats)
  {
    IndexedPrefix(ms, n, |stats|);
    IndexedPrefix(ms, n + 1, |stats|);
    assert ms[..n + 1][..n] == ms[..n];
  }

  /** The inner loop of the outlier scan: the error sum of one match. */
  method MatchErrorSum(m: Match, stats: seq<Option<Spread>>) returns (r: Result<real, StatFault>)
    requires forall j :: 0 <= j < |m.obs| ==> m.obs[j].image < |stats|
    ensures r == ErrorSum(m.ned.z, m.obs, stats)
  {
    var errorSum := 0.0;
    var p := 0;
    while p < |m.obs|
      invariant 0 <= p <= |m.obs|
      invariant ErrorSum(m.ned.z, m.obs[..p], stats) == Ok(errorSum)
    {
      assert m.obs[..p + 1][..p] == m.obs[..p];
      var st := stats[m.obs[p].image];
      if st.None? {
        assert ErrorSum(m.ned.z, m.obs[..p + 1], stats) == Err(NoStats(m.obs[p].image));
        ErrorSumFaultPersists(m.ned.z, m.obs, p + 1, stats);
        return Err(NoStats(m.obs[p].image));
      }
      errorSum := errorSum + Abs(-m.ned.z - st.value.avg);
      p := p + 1;
    }
    assert m.obs[..p] == m.obs;
    r := Ok(errorSum);
  }

  /** The outlier loop. `image` is the image the name `image` is bound to when the loop starts. */
  method FindOutliers(ms: seq<Match>, image: Option<nat>, stats: seq<Option<Spread>>)
    returns (r: Result<seq<Outlier>, StatFault>)
    requires Indexed(ms, |stats|)
    requires image.Some? ==> image.value < |stats|
    ensures r == OutliersOf(ms, image, stats)
  {
    var outliers: seq<Outlier> := [];
    var current: Option<nat> := image;
    var i := 0;
    while i < |ms|
      invariant 0 <= i <= |ms|
      invariant Indexed(ms[..i], |stats|)
      invariant current.Some? ==> current.value < |stats|
      invariant ScanAll(ms[..i], image, stats) == Ok(Scan(outliers, current))
    {
      ScanStep(ms, i, image, stats, Scan(outliers, current));
      var step := CheckMatch(ms[i], i, current, stats);
      if step.Err? {
        return Err(step.error);
      }
      outliers := outliers + step.value.outliers;
      current := step.value.image;
      i := i + 1;
    }
    assert ms[..i] == ms;
    r := Ok(outliers);
  }

  /** The body of the outlier loop for match i, with `image` bound to `current` on entry. */
  method CheckMatch(m: Match, i: nat, current: Option<nat>, stats: seq<Option<Spread>>)
    returns (r: Result<Scan, StatFault>)
    requires forall j :: 0 <= j < |m.obs| ==> m.obs[j].image < |stats|
    requires current.Some? ==> current.value < |stats|
    ensures r == ScanMatch(m, i, current, stats)
  {
    var errorSum := MatchErrorSum(m, stats);
    if errorSum.Err? {
      return Err(errorSum.error);
    }
    var image := current;
    if m.obs != [] {
      image := Some(m.obs[|m.obs| - 1].image);
    }
    if image.None? {
      return Err(NoImageBound);
    }
    var st := stats[image.value];
    if st.None? {
      return Err(NoStats(image.value));
    }
    var added: seq<Outlier> := [];
    if Flagged(errorSum.value, st.value.variance, |m.obs|) {
      added := [Outlier(errorSum.value, i)];
    }
    r := Ok(Scan(added, image));
  }

  /** One iteration of the outlier loop: a failing body ends the whole scan with its fault. */
  lemma ScanStep(ms: seq<Match>, i: nat, image: Option<nat>, stats: seq<Option<Spread>>, before: Scan)
    requires Indexed(ms, |stats|)
    requires image.Some? ==> image.value < |stats|
    requires i < |ms| && Indexed(ms[..i], |stats|)
    requires before.image.Some? ==> before.image.value < |stats|
    requires ScanAll(ms[..i], image, stats) == Ok(before)
    ensures Indexed(ms[..i + 1], |stats|)
    ensures var step := ScanMatch(ms[i], i, before.image, stats);
      && (step.Err? ==> OutliersOf(ms, image, stats) == Err(step.error))
      && (step.Ok? ==> ScanAll(ms[..i + 1], image, stats) == Ok(Scan(before.outliers + step.value.outliers, step.value.image)))
  {
    ScanPrefix(ms, i, image, stats);
    if ScanMatch(ms[i], i, before.image, stats).Err? {
      ScanFaultPersists(ms, i + 1, image, stats);
    }
  }

  lemma {:induction false} ErrorSumFaultPersists(z: real, obs: seq<Observation>, n: nat, stats: seq<Option<Spread>>)
    requires forall j :: 0 <= j < |obs| ==> obs[j].image < |stats|
    requires n <= |obs|
    requires ErrorSum(z, obs[..n], stats).Err?
    ensures ErrorSum(z, obs, stats) == ErrorSum(z, obs[..n], stats)
    decreases |obs| - n
  {
    if n < |obs| {
      assert obs[..n + 1][..n] == obs[..n];
      ErrorSumFaultPersists(z, obs, n + 1, stats);
    } else {
      assert obs[..n] == obs;
    }
  }

  lemma {:induction false} ScanFaultPersists(ms: seq<Match>, n: nat, image: Option<nat>, stats: seq<Option<Spread>>)
    requires Indexed(ms, |stats|)
    requires image.Some? ==> image.value < |stats|
    requires n <= |ms|
    requires ScanAll(ms[..n], image, stats).Err?
    ensures ScanAll(ms, image, stats) == ScanAll(ms[..n], image, stats)
    decreases |ms| - n
  {
    if n < |ms| {
      ScanPrefix(ms, n, image, stats);
      ScanFaultPersists(ms, n + 1, image, stats);
    } else {
      assert ms[..n] == ms;
    }
  }

  /** A match's flag, for a match with observations: its last observer's spread sets the threshold. */
  predicate FlaggedMatch(m: Match, stats: seq<Option<Spread>>)
    requires forall j :: 0 <= j < |m.obs| ==> m.obs[j].image < |stats|
  {
    && m.obs != []
    && var e := ErrorSum(m.ned.z, m.obs, stats);
    && var last := m.obs[|m.obs| - 1].image;
    && e.Ok? && stats[last].Some?
    && Flagged(e.value, stats[last].value.variance, |m.obs|)
  }

  /** A completed step adds the match exactly when it is flagged. */
  lemma ScanMatchOutliers(m: Match, i: nat, image: Option<nat>, stats: seq<Option<Spread>>)
    requires forall j :: 0 <= j < |m.obs| ==> m.obs[j].image < |stats|
    requires image.Some? ==> image.value < |stats|
    requires ScanMatch(m, i, image, stats).Ok?
    ensures ScanMatch(m, i, image, stats).value.outliers ==
      (if FlaggedMatch(m, stats) then [Outlier(ErrorSum(m.ned.z, m.obs, stats).value, i)] else [])
  {
    if m.obs == [] {
      assert ErrorSum(m.ned.z, m.obs, stats) == Ok(0.0);
    }
  }

  /** One step of a completed scan: the last match adds itself exactly when it is flagged. */
  lemma ScanLast(ms: seq<Match>, image: Option<nat>, stats: seq<Option<Spread>>)
    requires Indexed(ms, |stats|)
    requires image.Some? ==> image.value < |stats|
    requires ms != [] && ScanAll(ms, image, stats).Ok?
    ensures Indexed(ms[..|ms| - 1], |stats|)
    ensures ScanAll(ms[..|ms| - 1], image, stats).Ok?
    ensures var m := ms[|ms| - 1];
      ScanAll(ms, image, stats).value.outliers ==
        ScanAll(ms[..|ms| - 1], image, stats).value.outliers +
        (if FlaggedMatch(m, stats) then [Outlier(ErrorSum(m.ned.z, m.obs, stats).value, |ms| - 1)] else [])
  {
    IndexedPrefix(ms, |ms| - 1, |stats|);
    var before := ScanAll(ms[..|ms| - 1], image, stats);
    var m := ms[|ms| - 1];
    assert ScanAll(ms, image, stats) == Extend(before, m, |ms| - 1, stats);
    ScanMatchOutliers(m, |ms| - 1, before.value.image, stats);
  }

  /** The outliers come in increasing match order and each is a flagged match with its error sum. */
  lemma {:induction false} OutliersAreFlagged(ms: seq<Match>, image: Option<nat>, stats: seq<Option<Spread>>)
    requires Indexed(ms, |stats|)
    requires image.Some? ==> image.value < |stats|
    requires ScanAll(ms, image, stats).Ok?
    ensures var out := ScanAll(ms, image, stats).value.outliers;
      && (forall a, b :: 0 <= a < b < |out| ==> out[a].index < out[b].index)
      && (forall a :: 0 <= a < |out| ==>
            && out[a].index < |ms| && FlaggedMatch(ms[out[a].index], stats)
            && out[a].errorSum == ErrorSum(ms[out[a].index].ned.z, ms[out[a].index].obs, stats).value)
  {
    if ms != [] {
      var init := ms[..|ms| - 1];
      ScanLast(ms, image, stats);
      OutliersAreFlagged(init, image, stats);
      var before := ScanAll(init, image, stats).value.outliers;
      forall a | 0 <= a < |before| ensures init[before[a].index] == ms[before[a].index] {
      }
    }
  }

  /** Every flagged match is listed. */
  lemma {:induction false} FlaggedAreListed(ms: seq<Match>, image: Option<nat>, stats: seq<Option<Spread>>)
    requires Indexed(ms, |stats|)
    requires image.Some? ==> image.value < |stats|
    requires ScanAll(ms, image, stats).Ok?
    ensures var out := ScanAll(ms, image, stats).value.outliers;
      forall i :: 0 <= i < |ms| && FlaggedMatch(ms[i], stats) ==> exists a :: 0 <= a < |out| && out[a].index == i
  {
    if ms != [] {
      var init := ms[..|ms| - 1];
      ScanLast(ms, image, stats);
      FlaggedAreListed(init, image, stats);
      var before := ScanAll(init, image, stats).value.outliers;
      var out := ScanAll(ms, image, stats).value.outliers;
      forall i | 0 <= i < |ms| && FlaggedMatch(ms[i], stats)
        ensures exists a :: 0 <= a < |out| && out[a].index == i
      {
        if i < |init| {
          assert init[i] == ms[i];
          var a :| 0 <= a < |before| && before[a].index == i;
          assert out[a].index == i;
        } else {
          assert out[|before|].index == i;
        }
      }
    }
  }

  /**
   * When the loop completes, the outliers are exactly the flagged matches, each with its
   * error sum, in match order; a match without observations is never flagged.
   */
  lemma OutliersCharacterised(ms: seq<Match>, image: Option<nat>, stats: seq<Option<Spread>>)
    requires Indexed(ms, |stats|)
    requires image.Some? ==> image.value < |stats|
    requires ScanAll(ms, image, stats).Ok?
    ensures var out := ScanAll(ms, image, stats).value.outliers;
      && (forall a, b :: 0 <= a < b < |out| ==> out[a].index < out[b].index)
      && (forall a :: 0 <= a < |out| ==>
            && out[a].index < |ms| && FlaggedMatch(ms[out[a].index], stats)
            && out[a].errorSum == ErrorSum(ms[out[a].index].ned.z, ms[out[a].index].obs, stats).value)
      && (forall i :: 0 <= i < |ms| ==>
            (FlaggedMatch(ms[i], stats) <==> exists a :: 0 <= a < |out| && out[a].index == i))
  {
    OutliersAreFlagged(ms, image, stats);
    FlaggedAreListed(ms, image, stats);
  }

  lemma ErrorSumAtMost(z: real, obs: seq<Observation>, stats: seq<Option<Spread>>, bound: real)
    requires forall j :: 0 <= j < |obs| ==> obs[j].image < |stats|
    requires forall j :: 0 <= j < |obs| ==>
      stats[obs[j].image].Some? && Abs(-z - stats[obs[j].image].value.avg) <= bound
    ensures ErrorSum(z, obs, stats).Ok?
    ensures ErrorSum(z, obs, stats).value <= (|obs| as real) * bound
  {
    ErrorSumWithin(z, obs, stats, bound);
    RepeatedSumIsProduct(|obs|, bound);
  }

  /** `bound` added up n times. */
  function RepeatedSum(n: nat, bound: real): real {
    if n == 0 then 0.0 else RepeatedSum(n - 1, bound) + bound
  }

  lemma {:induction false} RepeatedSumIsProduct(n: nat, bound: real)
    ensures RepeatedSum(n, bound) == (n as real) * bound
  {
    if n > 0 {
      RepeatedSumIsProduct(n - 1, bound);
      assert ((n - 1) as real) * bound + bound == (n as real) * bound;
    }
  }

  lemma {:induction false} ErrorSumWithin(z: real, obs: seq<Observation>, stats: seq<Option<Spread>>, bound: real)
    requires forall j :: 0 <= j < |obs| ==> obs[j].image < |stats|
    requires forall j :: 0 <= j < |obs| ==>
      stats[obs[j].image].Some? && Abs(-z - stats[obs[j].image].value.avg) <= bound
    ensures ErrorSum(z, obs, stats).Ok?
    ensures ErrorSum(z, obs, stats).value <= RepeatedSum(|obs|, bound)
  {
    if obs != [] {
      var n := |obs| - 1;
      ErrorSumWithin(z, obs[..n], stats, bound);
      var before := ErrorSum(z, obs[..n], stats).value;
      var last := Abs(-z - stats[obs[n].image].value.avg);
      assert ErrorSum(z, obs, stats) == Ok(before + last);
    }
  }

  /**
   * A match whose -z lies within one standard deviation of the last observer, measured from
   * every observer's mean, is never flagged.
   */
  lemma WithinOneSigmaNotFlagged(m: Match, stats: seq<Option<Spread>>, std: real)
    requires forall j :: 0 <= j < |m.obs| ==> m.obs[j].image < |stats|
    requires m.obs != []
    requires stats[m.obs[|m.obs| - 1].image].Some?
    requires IsStd(std, stats[m.obs[|m.obs| - 1].image].value.variance)
    requires forall j :: 0 <= j < |m.obs| ==>
      stats[m.obs[j].image].Some? && Abs(-m.ned.z - stats[m.obs[j].image].value.avg) <= std
    ensures !FlaggedMatch(m, stats)
  {
    var n := |m.obs|;
    ErrorSumAtMost(m.ned.z, m.obs, stats, std);
    ErrorSumNonNegative(m.ned.z, m.obs, stats);
    NotFlaggedBelow(ErrorSum(m.ned.z, m.obs, stats).value, stats[m.obs[n - 1].image].value.variance, std, n);
  }

  lemma NotFlaggedBelow(e: real, variance: real, std: real, n: nat)
    requires IsStd(std, variance)
    requires 0.0 <= e <= (n as real) * std
    ensures !Flagged(e, variance, n)
  {
    FlaggedIff(e, variance, std, n);
    TripleBound(n as real, std);
  }

  lemma TripleBound(n: real, std: real)
    requires n >= 0.0 && std >= 0.0
    ensures n * std <= 3.0 * (std * n)
  {
    var p := n * std;
    assert p >= 0.0;
    assert std * n == p;
  }

  /**
   * The threshold uses only the last observer's spread: a point within one standard deviation
   * of each observer's own mean is flagged when an earlier observer's spread is much wider.
   */
  lemma WiderEarlierObserverFlags()
    ensures var stats := [Some(Spread(5.0, 100.0)), Some(Spread(0.0, 0.01))];
      var m := Match(Vec3(0.0, 0.0, -0.1), [Observation(0, 0.0, 0.0), Observation(1, 0.0, 0.0)]);
      && (forall j :: 0 <= j < |m.obs| ==>
            var st := stats[m.obs[j].image].value;
            (-m.ned.z - st.avg) * (-m.ned.z - st.avg) <= st.variance)
      && FlaggedMatch(m, stats)
  {
    var stats := [Some(Spread(5.0, 100.0)), Some(Spread(0.0, 0.01))];
    var m := Match(Vec3(0.0, 0.0, -0.1), [Observation(0, 0.0, 0.0), Observation(1, 0.0, 0.0)]);
    assert m.obs[..1] == [Observation(0, 0.0, 0.0)];
    assert ErrorSum(m.ned.z, m.obs[..1], stats) == Ok(4.9);
    assert ErrorSum(m.ned.z, m.obs, stats) == Ok(5.0);
  }

  /**
   * The loop raises nothing when every observing image has statistics and either the image
   * named before the loop has statistics too or every match has an observation (a match
   * without observations reads the image the name `image` still holds).
   */
  lemma {:induction false} ScanSucceeds(ms: seq<Match>, image: Option<nat>, stats: seq<Option<Spread>>)
    requires Indexed(ms, |stats|)
    requires image.Some? ==> image.value < |stats|
    requires forall i, j :: 0 <= i < |ms| && 0 <= j < |ms[i].obs| ==> stats[ms[i].obs[j].image].Some?
    requires (image.Some? && stats[image.value].Some?) || (forall i :: 0 <= i < |ms| ==> ms[i].obs != [])
    ensures ScanAll(ms, image, stats).Ok?
    ensures var s := ScanAll(ms, image, stats).value;
      ms != [] || (image.Some? && stats[image.value].Some?) ==> s.image.Some? && stats[s.image.value].Some?
  {
    if ms != [] {
      var n := |ms| - 1;
      ScanPrefix(ms, n, image, stats);
      assert ms[..n + 1] == ms;
      var init := ms[..n];
      forall i, j | 0 <= i < |init| && 0 <= j < |init[i].obs| ensures stats[init[i].obs[j].image].Some? {
        assert init[i] == ms[i];
      }
      if !(image.Some? && stats[image.value].Some?) {
        forall i | 0 <= i < |init| ensures init[i].obs != [] {
          assert init[i] == ms[i];
        }
      }
      ScanSucceeds(init, image, stats);
      forall j | 0 <= j < |ms[n].obs| ensures ms[n].obs[j].image < |stats| && stats[ms[n].obs[j].image].Some? {
      }
      ErrorSumSucceeds(ms[n].ned.z, ms[n].obs, stats);
    }
  }

  lemma {:induction false} ErrorSumSucceeds(z: real, obs: seq<Observation>, stats: seq<Option<Spread>>)
    requires forall j :: 0 <= j < |obs| ==> obs[j].image < |stats| && stats[obs[j].image].Some?
    ensures ErrorSum(z, obs, stats).Ok?
  {
    if obs != [] {
      ErrorSumSucceeds(z, obs[..|obs| - 1], stats);
    }
  }

  /** The statistics every image holds after the accumulation and statistics loops. */
  function ImageSpreads(ms: seq<Match>, count: nat): (r: seq<Option<Spread>>)
    ensures |r| == count
  {
    seq(count, k requires 0 <= k < count => SpreadOf(ZList(ms, k)))
  }

  /** The image the name `image` holds after `for image in proj.image_list` (unbound for no images). */
  function LastImage(count: nat): Option<nat> {
    if count == 0 then None else Some(count - 1)
  }

  /**
   * Over a whole project the outlier loop completes when every match has an observation,
   * or when the project's last image has one.
   */
  lemma ProjectScanSucceeds(ms: seq<Match>, count: nat)
    requires Indexed(ms, count)
    requires (count > 0 && TotalObs(ms, count - 1) > 0) || (forall i :: 0 <= i < |ms| ==> ms[i].obs != [])
    ensures OutliersOf(ms, LastImage(count), ImageSpreads(ms, count)).Ok?
  {
    var stats := ImageSpreads(ms, count);
    forall i, j | 0 <= i < |ms| && 0 <= j < |ms[i].obs| ensures stats[ms[i].obs[j].image].Some? {
      ObserversHaveStats(ms, i, j);
    }
    if count > 0 && TotalObs(ms, count - 1) > 0 {
      ImageStatsPresentIff(ms, count - 1);
    }
    ScanSucceeds(ms, LastImage(count), stats);
  }

  /** A project with no images raises as soon as there is a match: `image` was never bound. */
  lemma NoImagesFails(ms: seq<Match>)
    requires Indexed(ms, 0) && ms != []
    ensures OutliersOf(ms, LastImage(0), ImageSpreads(ms, 0)) == Err(NoImageBound)
  {
    var stats := ImageSpreads(ms, 0);
    ScanPrefix(ms, 0, None, stats);
    assert |ms[0].obs| > 0 ==> ms[0].obs[0].image < 0;
    assert ScanAll(ms[..1], None, stats) == Err(NoImageBound);
    ScanFaultPersists(ms, 1, None, stats);
  }

  /**
   * Lines 138-171 of the render script: the per-image lists and statistics, then the
   * outliers in report order, or the exception the outlier loop raises.
   */
  method ElevationOutliers(images: seq<Image>, ms: seq<Match>) returns (r: Result<seq<Outlier>, StatFault>)
    requires Distinct(images)
    requires Indexed(ms, |images|)
    modifies set k | 0 <= k < |images| :: images[k]
    ensures forall k :: 0 <= k < |images| ==>
      && images[k].zList == ZList(ms, k) && images[k].zStats == SpreadOf(ZList(ms, k))
      && images[k].gridList == []
    ensures r == (var found :- OutliersOf(ms, LastImage(|images|), ImageSpreads(ms, |images|));
                  Ok(SortOutliers(found)))
  {
    AccumulateElevations(images, ms);
    ImageStatistics(images);
    // the loop below reads images[k].z_stats; this is the value it sees
    var stats := seq(|images|, k requires 0 <= k < |images| reads images => images[k].zStats);
    assert stats == ImageSpreads(ms, |images|);
    var found := FindOutliers(ms, LastImage(|images|), stats);
    if found.Err? {
      return Err(found.error);
    }
    r := Ok(SortOutliers(found.value));
  }

  // ---------------------------------------------------------------------------
  // Report order

  /** `a` is listed no later than `b`: larger error first, equal errors in match order. */
  predicate RanksBefore(a: Outlier, b: Outlier) {
    a.errorSum > b.errorSum || (a.errorSum == b.errorSum && a.index <= b.index)
  }

  predicate SortedForReport(s: seq<Outlier>) {
    forall i, j :: 0 <= i < j < |s| ==> RanksBefore(s[i], s[j])
  }

  function InsertOutlier(x: Outlier, s: seq<Outlier>): (r: seq<Outlier>)
    requires SortedForReport(s)
    ensures SortedForReport(r)
    ensures multiset(r) == multiset(s) + multiset{x}
  {
    if s == [] then [x]
    else if RanksBefore(x, s[0]) then [x] + s
    else
      var tail := InsertOutlier(x, s[1..]);
      assert s == [s[0]] + s[1..];
      HeadRanksBeforeTail(s[0], s[1..], x, tail);
      [s[0]] + tail
  }

  /** An outlier ranked before every element and before x stays before any arrangement of them. */
  lemma HeadRanksBeforeTail(h: Outlier, rest: seq<Outlier>, x: Outlier, tail: seq<Outlier>)
    requires forall j :: 0 <= j < |rest| ==> RanksBefore(h, rest[j])
    requires RanksBefore(h, x)
    requires multiset(tail) == multiset(rest) + multiset{x}
    ensures forall j :: 0 <= j < |tail| ==> RanksBefore(h, tail[j])
  {
    forall j | 0 <= j < |tail| ensures RanksBefore(h, tail[j]) {
      assert tail[j] in multiset(tail);
      if tail[j] != x {
        assert tail[j] in multiset(rest);
        var k :| 0 <= k < |rest| && rest[k] == tail[j];
      }
    }
  }

  /**
   * `sorted(outliers, key=error_sum, reverse=True)`. Python's reverse sort is stable, so
   * on a list in match order equal errors stay in match order: this is the order RanksBefore states.
   */
  function SortOutliers(s: seq<Outlier>): (r: seq<Outlier>)
    ensures SortedForReport(r)
    ensures multiset(r) == multiset(s)
  {
    if s == [] then []
    else
      assert s == [s[0]] + s[1..];
      InsertOutlier(s[0], SortOutliers(s[1..]))
  }

  /** Two sorted arrangements of the same outliers start with the same outlier. */
  lemma SortedHeadsEqual(s: seq<Outlier>, t: seq<Outlier>)
    requires SortedForReport(s) && SortedForReport(t)
    requires multiset(s) == multiset(t) && s != []
    ensures t != [] && s[0] == t[0]
  {
    assert s[0] in multiset(t) && t != [];
    assert t[0] in multiset(s);
    var a :| 0 <= a < |t| && t[a] == s[0];
    var b :| 0 <= b < |s| && s[b] == t[0];
    if a == 0 {
      return;
    }
    assert RanksBefore(t[0], s[0]);
    if b == 0 {
      return;
    }
    assert RanksBefore(s[0], t[0]);
  }

  /** The report order is determined: two sorted arrangements of the same outliers are equal. */
  lemma {:induction false} ReportOrderUnique(s: seq<Outlier>, t: seq<Outlier>)
    requires SortedForReport(s) && SortedForReport(t)
    requires multiset(s) == multiset(t)
    ensures s == t
  {
    if s == [] {
      assert |t| == |multiset(t)| == 0;
    } else {
      SortedHeadsEqual(s, t);
      SameTails(s, t);
      ReportOrderUnique(s[1..], t[1..]);
    }
  }

  /** The report lists larger error sums first. */
  lemma ReportDescending(s: seq<Outlier>)
    ensures forall i, j :: 0 <= i < j < |SortOutliers(s)| ==> SortOutliers(s)[i].errorSum >= SortOutliers(s)[j].errorSum
  {
  }
}
