/**
  A PV module and its horizon skyline.  The skyline maps each azimuth bucket 0..359 to the
  elevation of the horizon obstacles in that direction.  It is built from any number of
  obstacle surveys in three steps: the samples of all surveys are grouped by their truncated
  azimuth, each group is averaged, and every bucket no survey saw is filled by linear
  interpolation between the nearest observed buckets on either side, going round the circle.
*/
module Horizon {
  import opened JavaNumerics
  import opened Outcomes
  import opened Records

  /** The elevation stored for one bucket.  `Indeterminate` is the value Java computes as NaN:
      interpolating between a bucket and itself divides by a zero distance. */
  datatype SkylineValue = Elevation(degrees: real) | Indeterminate

  type Skyline = map<int, SkylineValue>

  /** `tilt` is the panel's elevation angle in the source. */
  datatype PvModule = PvModule(dcRating: real, azimuth: real, tilt: real, skyline: Skyline)

  predicate IsBucket(k: int) {
    0 <= k < 360
  }

  /** The bucket a sample lands in: `(int) dataPoint.azimuth()`. */
  function BucketOf(p: DataPoint): int {
    IntCast(p.azimuth)
  }

  // ---------------------------------------------------------------------------------------
  // Grouping the samples of all surveys by bucket (`combineDatasets`)
  // ---------------------------------------------------------------------------------------

  /** Every sample of every survey, survey by survey, in the order given. */
  function AllPoints(datasets: seq<PanelObstacleData>): seq<DataPoint> {
    if |datasets| == 0 then [] else datasets[0].dataPoints + AllPoints(datasets[1..])
  }

  /** The elevations of the samples that land in `bucket`, in order. */
  function ElevationsIn(points: seq<DataPoint>, bucket: int): seq<real> {
    if |points| == 0 then []
    else (if BucketOf(points[0]) == bucket then [points[0].elevation] else [])
         + ElevationsIn(points[1..], bucket)
  }

  lemma {:induction false} ElevationsInAppend(a: seq<DataPoint>, b: seq<DataPoint>, bucket: int)
    ensures ElevationsIn(a + b, bucket) == ElevationsIn(a, bucket) + ElevationsIn(b, bucket)
  {
    if |a| == 0 {
      assert a + b == b;
    } else {
      var here := if BucketOf(a[0]) == bucket then [a[0].elevation] else [];
      assert (a + b)[0] == a[0];
      assert (a + b)[1..] == a[1..] + b;
      assert ElevationsIn(a + b, bucket) == here + ElevationsIn(a[1..] + b, bucket);
      ElevationsInAppend(a[1..], b, bucket);
      assert ElevationsIn(a, bucket) == here + ElevationsIn(a[1..], bucket);
    }
  }

  /** A bucket has samples exactly when some sample's azimuth truncates to it. */
  lemma {:induction false} ElevationsInNonEmpty(points: seq<DataPoint>, bucket: int)
    ensures ElevationsIn(points, bucket) != [] <==> exists i :: 0 <= i < |points| && BucketOf(points[i]) == bucket
  {
    if |points| > 0 {
      ElevationsInNonEmpty(points[1..], bucket);
      if BucketOf(points[0]) != bucket && ElevationsIn(points, bucket) == [] {
        forall i | 0 <= i < |points| ensures BucketOf(points[i]) != bucket {
          if i > 0 { assert points[i] == points[1..][i - 1]; }
        }
      }
      if ElevationsIn(points[1..], bucket) != [] {
        var i :| 0 <= i < |points[1..]| && BucketOf(points[1..][i]) == bucket;
        assert points[i + 1] == points[1..][i];
      }
    }
  }

  /** The samples collected so far for a bucket. */
  function Collected(acc: map<int, seq<real>>, bucket: int): seq<real> {
    if bucket in acc then acc[bucket] else []
  }

  /** One step of the inner loop of `combineDatasets`: append the sample to its bucket's list. */
  function AddPoint(acc: map<int, seq<real>>, p: DataPoint): map<int, seq<real>> {
    acc[BucketOf(p) := Collected(acc, BucketOf(p)) + [p.elevation]]
  }

  /** The inner loop of `combineDatasets` over the points of one survey. */
  function AddPoints(acc: map<int, seq<real>>, points: seq<DataPoint>): (m: map<int, seq<real>>)
    ensures forall k :: k in m <==> k in acc || ElevationsIn(points, k) != []
    ensures forall k :: k in m ==> m[k] == Collected(acc, k) + ElevationsIn(points, k)
    decreases |points|
  {
    if |points| == 0 then acc
    else
      var m := AddPoints(AddPoint(acc, points[0]), points[1..]);
      assert forall k :: k in m ==> m[k] == Collected(acc, k) + ElevationsIn(points, k) by {
        forall k | k in m ensures m[k] == Collected(acc, k) + ElevationsIn(points, k) {
          AddPointCollected(acc, points, k);
        }
      }
      m
  }

  /** Adding the first sample, then the rest, collects what adding them all collects. */
  lemma {:induction false} AddPointCollected(acc: map<int, seq<real>>, points: seq<DataPoint>, k: int)
    requires 0 < |points|
    ensures Collected(AddPoint(acc, points[0]), k) + ElevationsIn(points[1..], k)
         == Collected(acc, k) + ElevationsIn(points, k)
    ensures k in AddPoint(acc, points[0]) <==> k in acc || BucketOf(points[0]) == k
  {
    var here := if BucketOf(points[0]) == k then [points[0].elevation] else [];
    var before, rest := Collected(acc, k), ElevationsIn(points[1..], k);
    assert ElevationsIn(points, k) == here + rest;
    if BucketOf(points[0]) == k {
      assert Collected(AddPoint(acc, points[0]), k) == before + here;
    } else {
      assert here == [];
      assert Collected(AddPoint(acc, points[0]), k) == before;
    }
    assert (before + here) + rest == before + (here + rest);
  }

  /** The outer loop of `combineDatasets` over the surveys. */
  function AddDatasets(acc: map<int, seq<real>>, datasets: seq<PanelObstacleData>): (m: map<int, seq<real>>)
    ensures forall k :: k in m <==> k in acc || ElevationsIn(AllPoints(datasets), k) != []
    ensures forall k :: k in m ==> m[k] == Collected(acc, k) + ElevationsIn(AllPoints(datasets), k)
    decreases |datasets|
  {
    if |datasets| == 0 then acc
    else
      var first := AddPoints(acc, datasets[0].dataPoints);
      var m := AddDatasets(first, datasets[1..]);
      assert AllPoints(datasets) == datasets[0].dataPoints + AllPoints(datasets[1..]);
      CollectInTurn(acc, first, m, datasets[0].dataPoints, AllPoints(datasets[1..]));
      m
  }

  /** Collecting the samples of `a` and then those of `b` collects the samples of `a + b`. */
  lemma {:induction false} CollectInTurn(acc: map<int, seq<real>>, first: map<int, seq<real>>, m: map<int, seq<real>>,
                                         a: seq<DataPoint>, b: seq<DataPoint>)
    requires forall k :: k in first <==> k in acc || ElevationsIn(a, k) != []
    requires forall k :: k in first ==> first[k] == Collected(acc, k) + ElevationsIn(a, k)
    requires forall k :: k in m <==> k in first || ElevationsIn(b, k) != []
    requires forall k :: k in m ==> m[k] == Collected(first, k) + ElevationsIn(b, k)
    ensures forall k :: k in m <==> k in acc || ElevationsIn(a + b, k) != []
    ensures forall k :: k in m ==> m[k] == Collected(acc, k) + ElevationsIn(a + b, k)
  {
    forall k ensures k in m <==> k in acc || ElevationsIn(a + b, k) != [] {
      ElevationsInAppend(a, b, k);
    }
    forall k | k in m ensures m[k] == Collected(acc, k) + ElevationsIn(a + b, k) {
      ElevationsInAppend(a, b, k);
      CollectedInTurn(acc, first, m, ElevationsIn(a, k), ElevationsIn(b, k), k);
    }
  }

  lemma {:induction false} CollectedInTurn(acc: map<int, seq<real>>, first: map<int, seq<real>>, m: map<int, seq<real>>,
                                           xs: seq<real>, ys: seq<real>, k: int)
    requires k in first <==> k in acc || xs != []
    requires k in first ==> first[k] == Collected(acc, k) + xs
    requires k in m && m[k] == Collected(first, k) + ys
    ensures m[k] == Collected(acc, k) + (xs + ys)
  {
    assert Collected(first, k) == Collected(acc, k) + xs;
  }

  /** `combineDatasets`: every sample of every survey ends up in the list of its truncated
      azimuth, in survey order; a bucket is present exactly when it received a sample. */
  function CombineDatasets(datasets: seq<PanelObstacleData>): (m: map<int, seq<real>>)
    ensures forall k :: k in m <==> ElevationsIn(AllPoints(datasets), k) != []
    ensures forall k :: k in m ==> m[k] == ElevationsIn(AllPoints(datasets), k)
  {
    AddDatasets(map[], datasets)
  }

  // ---------------------------------------------------------------------------------------
  // Averaging (`averageDatasets`, `calculateAverage`)
  // ---------------------------------------------------------------------------------------

  function Sum(xs: seq<real>): real {
    if |xs| == 0 then 0.0 else xs[0] + Sum(xs[1..])
  }

  /** `calculateAverage`: the sum divided by the count. */
  function Mean(xs: seq<real>): real
    requires |xs| > 0
  {
    Sum(xs) / |xs| as real
  }

  lemma {:induction false} SumWithin(xs: seq<real>, lo: real, hi: real)
    requires forall i :: 0 <= i < |xs| ==> lo <= xs[i] <= hi
    ensures |xs| as real * lo <= Sum(xs) <= |xs| as real * hi
  {
    if |xs| > 0 {
      SumWithin(xs[1..], lo, hi);
      assert |xs| as real * lo == lo + (|xs| - 1) as real * lo;
      assert |xs| as real * hi == hi + (|xs| - 1) as real * hi;
    }
  }

  /** The mean of samples that all lie in [lo, hi] lies in [lo, hi]; a list of equal samples
      averages to that sample. */
  lemma {:induction false} MeanWithin(xs: seq<real>, lo: real, hi: real)
    requires |xs| > 0
    requires forall i :: 0 <= i < |xs| ==> lo <= xs[i] <= hi
    ensures lo <= Mean(xs) <= hi
  {
    SumWithin(xs, lo, hi);
    var n := |xs| as real;
    var s := Sum(xs);
    DivMono(n * lo, s, n);
    DivMono(s, n * hi, n);
    CancelFactor(n, lo);
    CancelFactor(n, hi);
  }

  lemma {:induction false} CancelFactor(n: real, x: real)
    requires 0.0 < n
    ensures (n * x) / n == x
  {
  }

  lemma {:induction false} DivMono(a: real, b: real, n: real)
    requires 0.0 < n && a <= b
    ensures a / n <= b / n
  {
  }

  /** `averageDatasets`: each bucket's list replaced by its mean. */
  function AverageDatasets(m: map<int, seq<real>>): (r: map<int, real>)
    requires forall k :: k in m ==> |m[k]| > 0
    ensures r.Keys == m.Keys
    ensures forall k :: k in r ==> r[k] == Mean(m[k])
  {
    map k | k in m :: Mean(m[k])
  }

  // ---------------------------------------------------------------------------------------
  // Filling the gaps (`interpolateDataset`, `interpolateElevation`)
  // ---------------------------------------------------------------------------------------

  /** Steps from bucket `a` clockwise (towards higher azimuth, wrapping at 360) to bucket `b`,
      computed as the source does: `(b - a + 360) % 360`. */
  function ClockwiseDistance(a: int, b: int): (d: int)
    requires IsBucket(a) && IsBucket(b)
    ensures 0 <= d < 360
    ensures a <= b ==> d == b - a
    ensures b < a ==> d == b - a + 360
  {
    (b - a + 360) % 360
  }

  /** The observed buckets of an averaged dataset; keys outside 0..359 do not count. */
  function ObservedBuckets(data: map<int, real>): set<int> {
    set k | k in data && IsBucket(k)
  }

  /** The number of steps the counter-clockwise search from `az` takes to reach bucket `k`;
      `az` itself is reached last, after a full turn. */
  function StepsCcw(az: int, k: int): int
    requires IsBucket(az) && IsBucket(k)
  {
    if k == az then 360 else ClockwiseDistance(k, az)
  }

  /** The number of steps the clockwise search from `az` takes to reach bucket `k`. */
  function StepsCw(az: int, k: int): int
    requires IsBucket(az) && IsBucket(k)
  {
    if k == az then 360 else ClockwiseDistance(az, k)
  }

  /** Step `step` of the counter-clockwise search inspects bucket `(az - step + 360) % 360`,
      and no other bucket needs exactly that many steps. */
  lemma {:induction false} CcwStep(az: int, step: int)
    requires IsBucket(az) && 1 <= step <= 360
    ensures IsBucket((az - step + 360) % 360)
    ensures StepsCcw(az, (az - step + 360) % 360) == step
    ensures forall k :: IsBucket(k) && StepsCcw(az, k) == step ==> k == (az - step + 360) % 360
  {
    Wrap(az - step + 360);
    var w := (az - step + 360) % 360;
    forall k | IsBucket(k) && StepsCcw(az, k) == step ensures k == w {
      if k == az { assert step == 360; } else if k < az { assert az - k == step; } else { assert az - k + 360 == step; }
    }
  }

  /** The clockwise counterpart of `CcwStep`: step `step` inspects bucket `(az + step) % 360`. */
  lemma {:induction false} CwStep(az: int, step: int)
    requires IsBucket(az) && 1 <= step <= 360
    ensures IsBucket((az + step) % 360)
    ensures StepsCw(az, (az + step) % 360) == step
    ensures forall k :: IsBucket(k) && StepsCw(az, k) == step ==> k == (az + step) % 360
  {
    Wrap(az + step);
    var w := (az + step) % 360;
    forall k | IsBucket(k) && StepsCw(az, k) == step ensures k == w {
      if k == az { assert step == 360; } else if az < k { assert k - az == step; } else { assert k - az + 360 == step; }
    }
  }

  /** The remainder by 360 of a number in [0, 720). */
  lemma {:induction false} Wrap(x: int)
    requires 0 <= x < 720
    ensures x % 360 == if x < 360 then x else x - 360
  {
  }

  /** The loop `for (i = azimuth - 1; i >= azimuth - 360; i--)` from its `step`-th iteration:
      it finds the observed bucket the fewest steps away counter-clockwise. */
  function SearchCcw(data: map<int, real>, az: int, step: int): (r: Option<int>)
    requires IsBucket(az) && 1 <= step <= 361
    ensures r.Some? ==> r.value in data && IsBucket(r.value) && step <= StepsCcw(az, r.value)
    ensures forall k :: k in data && IsBucket(k) && step <= StepsCcw(az, k)
              ==> r.Some? && StepsCcw(az, r.value) <= StepsCcw(az, k)
    decreases 361 - step
  {
    if step > 360 then None
    else
      var wrappedIndex := (az - step + 360) % 360;
      CcwStep(az, step);
      if wrappedIndex in data then Some(wrappedIndex) else SearchCcw(data, az, step + 1)
  }

  /** The loop `for (i = azimuth + 1; i <= azimuth + 360; i++)` from its `step`-th iteration:
      it finds the observed bucket the fewest steps away clockwise. */
  function SearchCw(data: map<int, real>, az: int, step: int): (r: Option<int>)
    requires IsBucket(az) && 1 <= step <= 361
    ensures r.Some? ==> r.value in data && IsBucket(r.value) && step <= StepsCw(az, r.value)
    ensures forall k :: k in data && IsBucket(k) && step <= StepsCw(az, k)
              ==> r.Some? && StepsCw(az, r.value) <= StepsCw(az, k)
    decreases 361 - step
  {
    if step > 360 then None
    else
      var wrappedIndex := (az + step) % 360;
      CwStep(az, step);
      if wrappedIndex in data then Some(wrappedIndex) else SearchCw(data, az, step + 1)
  }

  /** Linear interpolation on the circle: `interpolateElevation`.  The caller always passes the
      stored elevations of `left` and `right`, so equal buckets come with equal elevations. */
  function InterpolateElevation(left: int, leftElevation: real, right: int, rightElevation: real, target: int): (v: SkylineValue)
    requires IsBucket(left) && IsBucket(right) && IsBucket(target)
    requires left == right ==> leftElevation == rightElevation
    ensures v.Indeterminate? <==> left == right
    ensures v.Elevation? && target == left ==> v.degrees == leftElevation
    ensures v.Elevation? && target == right ==> v.degrees == rightElevation
    ensures (v.Elevation? && ClockwiseDistance(left, target) <= ClockwiseDistance(left, right))
              ==> Between(v.degrees, leftElevation, rightElevation)
  {
    var distanceLeftRight := ClockwiseDistance(left, right);
    var distanceTargetLeft := ClockwiseDistance(left, target);
    if distanceLeftRight == 0 then Indeterminate
    else
      var t := distanceTargetLeft as real / distanceLeftRight as real;
      LerpBetween(distanceTargetLeft, distanceLeftRight, leftElevation, rightElevation);
      Elevation(leftElevation + t * (rightElevation - leftElevation))
  }

  /** `x` lies between `a` and `b`, whichever is larger. */
  predicate Between(x: real, a: real, b: real) {
    (a <= x <= b) || (b <= x <= a)
  }

  /** The interpolation step with `t = n / d`, for `0 < d` and `0 <= n`. */
  lemma {:induction false} LerpBetween(n: int, d: int, a: real, b: real)
    requires 0 <= n && 0 < d
    ensures n <= d ==> Between(a + (n as real / d as real) * (b - a), a, b)
    ensures n == d ==> a + (n as real / d as real) * (b - a) == b
  {
    var t := n as real / d as real;
    var e := b - a;
    if n <= d {
      assert 0.0 <= t <= 1.0;
      if e >= 0.0 {
        assert 0.0 <= t * e <= e by { assert t * e <= 1.0 * e; }
      } else {
        assert e <= t * e <= 0.0 by { assert 1.0 * e <= t * e; }
      }
    }
    if n == d { assert t == 1.0; }
  }

  /** The value `interpolateDataset` stores for bucket `az`, or `None` when it `continue`s
      because one of the searches found nothing. */
  function SkylineCell(data: map<int, real>, az: int): Option<SkylineValue>
    requires IsBucket(az)
  {
    if az in data then Some(Elevation(data[az]))
    else
      var left := SearchCcw(data, az, 1);
      var right := SearchCw(data, az, 1);
      if left.None? || right.None? then None
      else
        assert left.value == right.value ==> data[left.value] == data[right.value];
        Some(InterpolateElevation(left.value, data[left.value], right.value, data[right.value], az))
  }

  /** `interpolateDataset`: observed buckets keep their value; if anything in 0..359 was
      observed every bucket gets a value, otherwise the skyline is empty. */
  function InterpolateDataset(data: map<int, real>): (sky: Skyline)
    ensures forall k :: k in sky ==> IsBucket(k)
    ensures ObservedBuckets(data) != {} ==> forall k :: IsBucket(k) ==> k in sky
    ensures ObservedBuckets(data) == {} ==> sky == map[]
    ensures forall k :: k in data && IsBucket(k) ==> k in sky && sky[k] == Elevation(data[k])
  {
    CellsPresent(data);
    map az | 0 <= az < 360 && SkylineCell(data, az).Some? :: SkylineCell(data, az).value
  }

  /** Every bucket gets a value when some bucket in 0..359 was observed, none otherwise. */
  lemma {:induction false} CellsPresent(data: map<int, real>)
    ensures ObservedBuckets(data) != {} ==> forall k :: IsBucket(k) ==> SkylineCell(data, k).Some?
    ensures ObservedBuckets(data) == {} ==> forall k :: IsBucket(k) ==> SkylineCell(data, k).None?
  {
    if ObservedBuckets(data) != {} {
      var o :| o in ObservedBuckets(data);
      forall k | IsBucket(k) ensures SkylineCell(data, k).Some? {
        if k !in data {
          assert SearchCcw(data, k, 1).Some? by { assert StepsCcw(k, o) >= 1; }
          assert SearchCw(data, k, 1).Some? by { assert StepsCw(k, o) >= 1; }
        }
      }
    } else {
      assert forall j :: j in data ==> !IsBucket(j) by {
        forall j | j in data ensures !IsBucket(j) { assert j !in ObservedBuckets(data); }
      }
    }
  }

  // ---------------------------------------------------------------------------------------
  // Properties of the interpolation on the circle
  // ---------------------------------------------------------------------------------------

  /** `l` is the observed bucket nearest to the unobserved bucket `az` going counter-clockwise. */
  ghost predicate NearestCcw(data: map<int, real>, az: int, l: int)
    requires IsBucket(az)
  {
    && l in data && IsBucket(l) && l != az
    && forall k :: k in data && IsBucket(k) && k != az ==> ClockwiseDistance(l, az) <= ClockwiseDistance(k, az)
  }

  /** `r` is the observed bucket nearest to the unobserved bucket `az` going clockwise. */
  ghost predicate NearestCw(data: map<int, real>, az: int, r: int)
    requires IsBucket(az)
  {
    && r in data && IsBucket(r) && r != az
    && forall k :: k in data && IsBucket(k) && k != az ==> ClockwiseDistance(az, r) <= ClockwiseDistance(az, k)
  }

  /** The searches of `interpolateDataset` find exactly the nearest neighbours. */
  lemma {:induction false} SearchesFindNearest(data: map<int, real>, az: int)
    requires IsBucket(az) && az !in data && ObservedBuckets(data) != {}
    ensures SearchCcw(data, az, 1).Some? && NearestCcw(data, az, SearchCcw(data, az, 1).value)
    ensures SearchCw(data, az, 1).Some? && NearestCw(data, az, SearchCw(data, az, 1).value)
  {
    var o :| o in ObservedBuckets(data);
    assert StepsCcw(az, o) >= 1 && StepsCw(az, o) >= 1;
  }

  /** The nearest neighbour in each direction is unique. */
  lemma {:induction false} NearestUnique(data: map<int, real>, az: int, l: int, l': int, r: int, r': int)
    requires IsBucket(az)
    requires NearestCcw(data, az, l) && NearestCcw(data, az, l')
    requires NearestCw(data, az, r) && NearestCw(data, az, r')
    ensures l == l' && r == r'
  {
  }

  /** The arithmetic of the circle behind the gap lemma: with the target strictly between its
      neighbours, the target lies strictly inside the arc from left to right. */
  lemma {:induction false} ArcSplit(l: int, az: int, r: int)
    requires IsBucket(l) && IsBucket(az) && IsBucket(r)
    requires l != az && r != az && l != r
    requires ClockwiseDistance(l, az) <= ClockwiseDistance(r, az)
    ensures 0 < ClockwiseDistance(l, az) < ClockwiseDistance(l, r)
  {
  }

  /** Gap filling with at least two observed buckets: the value of an unobserved bucket is
      interpolated between its nearest observed neighbours counter-clockwise and clockwise,
      which differ; the target sits strictly inside the arc between them (so the fraction `t`
      lies strictly between 0 and 1) and the value lies between the two neighbour elevations. */
  lemma {:induction false} GapBetweenNeighbours(data: map<int, real>, az: int, a: int, b: int, l: int, r: int)
    requires IsBucket(az) && az !in data
    requires a in data && b in data && IsBucket(a) && IsBucket(b) && a != b
    requires NearestCcw(data, az, l) && NearestCw(data, az, r)
    ensures l != r
    ensures 0 < ClockwiseDistance(l, az) < ClockwiseDistance(l, r)
    ensures az in InterpolateDataset(data)
    ensures InterpolateDataset(data)[az] == InterpolateElevation(l, data[l], r, data[r], az)
    ensures InterpolateDataset(data)[az].Elevation?
    ensures Between(InterpolateDataset(data)[az].degrees, data[l], data[r])
  {
    NeighboursFound(data, az, a, b, l, r);
    ArcSplit(l, az, r);
  }

  /** The searches from an unobserved bucket return its nearest neighbours, which differ
      when two buckets are observed. */
  lemma {:induction false} NeighboursFound(data: map<int, real>, az: int, a: int, b: int, l: int, r: int)
    requires IsBucket(az) && az !in data
    requires a in data && b in data && IsBucket(a) && IsBucket(b) && a != b
    requires NearestCcw(data, az, l) && NearestCw(data, az, r)
    ensures SearchCcw(data, az, 1) == Some(l) && SearchCw(data, az, 1) == Some(r)
    ensures l != r && ClockwiseDistance(l, az) <= ClockwiseDistance(r, az)
  {
    assert a in ObservedBuckets(data);
    SearchesFindNearest(data, az);
    NearestUnique(data, az, l, SearchCcw(data, az, 1).value, r, SearchCw(data, az, 1).value);
  }

  /** With a single observed bucket both searches return that bucket, so every other bucket
      gets the indeterminate value (NaN in Java). */
  lemma {:induction false} SingleObservation(data: map<int, real>, k: int)
    requires k in data && IsBucket(k)
    requires forall j :: j in data && IsBucket(j) ==> j == k
    ensures forall az :: IsBucket(az) ==> az in InterpolateDataset(data)
    ensures InterpolateDataset(data)[k] == Elevation(data[k])
    ensures forall az :: IsBucket(az) && az != k ==> InterpolateDataset(data)[az] == Indeterminate
  {
    assert k in ObservedBuckets(data);
    forall az | IsBucket(az) && az != k ensures InterpolateDataset(data)[az] == Indeterminate {
      SearchesFindNearest(data, az);
    }
  }

  /** Keys outside 0..359 are never inspected: dropping them changes nothing. */
  lemma {:induction false} OutOfRangeIgnored(data: map<int, real>)
    ensures InterpolateDataset(data) == InterpolateDataset(map k | k in data && IsBucket(k) :: data[k])
  {
    var inRange := map k | k in data && IsBucket(k) :: data[k];
    assert BucketPart(data, inRange);
    forall az | IsBucket(az) ensures SkylineCell(data, az) == SkylineCell(inRange, az) {
      SameCellInRange(data, inRange, az);
    }
    SameCellsSameSkyline(data, inRange);
  }

  /** `inRange` holds exactly the entries of `data` whose keys are buckets. */
  ghost predicate BucketPart(data: map<int, real>, inRange: map<int, real>) {
    && (forall k :: k in inRange <==> k in data && IsBucket(k))
    && (forall k :: k in inRange ==> inRange[k] == data[k])
  }

  lemma {:induction false} SameCellInRange(data: map<int, real>, inRange: map<int, real>, az: int)
    requires BucketPart(data, inRange)
    requires IsBucket(az)
    ensures SkylineCell(data, az) == SkylineCell(inRange, az)
  {
    SearchesInRange(data, inRange, az);
    CellFromSearches(data, inRange, az);
  }

  lemma {:induction false} CellFromSearches(data: map<int, real>, inRange: map<int, real>, az: int)
    requires SameSearches(data, inRange, az)
    ensures SkylineCell(data, az) == SkylineCell(inRange, az)
  {
  }

  ghost predicate SameSearches(data: map<int, real>, inRange: map<int, real>, az: int) {
    && BucketPart(data, inRange)
    && IsBucket(az)
    && SearchCcw(data, az, 1) == SearchCcw(inRange, az, 1)
    && SearchCw(data, az, 1) == SearchCw(inRange, az, 1)
  }

  /** Both searches from `az` find the same buckets in the data and in its bucket part. */
  lemma {:induction false} SearchesInRange(data: map<int, real>, inRange: map<int, real>, az: int)
    requires BucketPart(data, inRange)
    requires IsBucket(az)
    ensures SearchCcw(data, az, 1) == SearchCcw(inRange, az, 1)
    ensures SearchCw(data, az, 1) == SearchCw(inRange, az, 1)
  {
    SearchCcwInRange(data, inRange, az, 1);
    SearchCwInRange(data, inRange, az, 1);
  }

  /** The skyline depends on the data only through its cells. */
  lemma {:induction false} SameCellsSameSkyline(d1: map<int, real>, d2: map<int, real>)
    requires forall az | IsBucket(az) :: SkylineCell(d1, az) == SkylineCell(d2, az)
    ensures InterpolateDataset(d1) == InterpolateDataset(d2)
  {
    var s1, s2 := InterpolateDataset(d1), InterpolateDataset(d2);
    assert forall az :: az in s1 <==> az in s2;
    assert forall az :: az in s1 ==> s1[az] == s2[az];
  }

  lemma {:induction false} SearchCcwInRange(data: map<int, real>, inRange: map<int, real>, az: int, step: int)
    requires BucketPart(data, inRange)
    requires IsBucket(az) && 1 <= step <= 361
    ensures SearchCcw(data, az, step) == SearchCcw(inRange, az, step)
    decreases 361 - step
  {
    if step <= 360 {
      CcwStep(az, step);
      SearchCcwInRange(data, inRange, az, step + 1);
    }
  }

  lemma {:induction false} SearchCwInRange(data: map<int, real>, inRange: map<int, real>, az: int, step: int)
    requires BucketPart(data, inRange)
    requires IsBucket(az) && 1 <= step <= 361
    ensures SearchCw(data, az, step) == SearchCw(inRange, az, step)
    decreases 361 - step
  {
    if step <= 360 {
      CwStep(az, step);
      SearchCwInRange(data, inRange, az, step + 1);
    }
  }

  /** Buckets 359 and 1 are the neighbours of bucket 0 across the wrap: bucket 0 gets their
      midpoint, as two adjacent steps on either side. */
  lemma {:induction false} WrapAroundNeighbours(e359: real, e1: real)
    ensures 0 in InterpolateDataset(map[359 := e359, 1 := e1])
    ensures InterpolateDataset(map[359 := e359, 1 := e1])[0] == Elevation((e359 + e1) / 2.0)
  {
    var data := map[359 := e359, 1 := e1];
    AdjacentSearches(data);
    MidpointAcrossZero(e359, e1);
    assert SkylineCell(data, 0) == Some(Elevation((e359 + e1) / 2.0));
  }

  /** From bucket 0 the searches take one step each way, to 359 and to 1. */
  lemma {:induction false} AdjacentSearches(data: map<int, real>)
    requires 0 !in data && 359 in data && 1 in data
    ensures SearchCcw(data, 0, 1) == Some(359) && SearchCw(data, 0, 1) == Some(1)
  {
    assert (0 - 1 + 360) % 360 == 359 && (0 + 1) % 360 == 1;
  }

  /** Interpolating bucket 0 between 359 and 1 takes the midpoint. */
  lemma {:induction false} MidpointAcrossZero(e359: real, e1: real)
    ensures InterpolateElevation(359, e359, 1, e1, 0) == Elevation((e359 + e1) / 2.0)
  {
    assert ClockwiseDistance(359, 1) == 2 && ClockwiseDistance(359, 0) == 1;
    assert InterpolateElevation(359, e359, 1, e1, 0) == Elevation(e359 + (1.0 / 2.0) * (e1 - e359));
    assert e359 + (1.0 / 2.0) * (e1 - e359) == (e359 + e1) / 2.0;
  }

  // ---------------------------------------------------------------------------------------
  // The module
  // ---------------------------------------------------------------------------------------

  /** `getSingleDatasetForPvModule`: group, average and interpolate.  A bucket in 0..359 that
      received samples holds their mean; if any bucket in 0..359 received a sample all 360
      buckets are present, otherwise the skyline is empty. */
  function GetSingleDatasetForPvModule(datasets: seq<PanelObstacleData>): (sky: Skyline)
    ensures forall k :: k in sky ==> IsBucket(k)
    ensures forall k :: IsBucket(k) && ElevationsIn(AllPoints(datasets), k) != []
              ==> k in sky && sky[k] == Elevation(Mean(ElevationsIn(AllPoints(datasets), k)))
    ensures forall j :: IsBucket(j) && ElevationsIn(AllPoints(datasets), j) != []
              ==> forall k :: IsBucket(k) ==> k in sky
    ensures (forall k :: IsBucket(k) ==> ElevationsIn(AllPoints(datasets), k) == []) ==> sky == map[]
  {
    var combined := CombineDatasets(datasets);
    var averaged := AverageDatasets(combined);
    var sky := InterpolateDataset(averaged);
    assert forall j :: (IsBucket(j) && ElevationsIn(AllPoints(datasets), j) != []
      ==> j in ObservedBuckets(averaged));
    sky
  }

  /** `getPvModule`. */
  function GetPvModule(panel: SolarPanel): (m: PvModule)
    ensures m.dcRating == panel.panelWatts && m.azimuth == panel.panelAzimuth && m.tilt == panel.panelElevation
    ensures m.skyline == GetSingleDatasetForPvModule(panel.panelObstacleDatasets)
  {
    PvModule(panel.panelWatts, panel.panelAzimuth, panel.panelElevation,
             GetSingleDatasetForPvModule(panel.panelObstacleDatasets))
  }

  /** The survey `removeShadowing` builds its skyline from: one sample at (0, 0). */
  const NoShadowDatasets: seq<PanelObstacleData> := [PanelObstacleData(1.0, [DataPoint(0.0, 0.0)])]

  lemma NoShadowAveraged()
    ensures AverageDatasets(CombineDatasets(NoShadowDatasets)) == map[0 := 0.0]
  {
    assert AllPoints(NoShadowDatasets) == [DataPoint(0.0, 0.0)] by {
      assert AllPoints(NoShadowDatasets[1..]) == [];
    }
    var combined := CombineDatasets(NoShadowDatasets);
    assert BucketOf(DataPoint(0.0, 0.0)) == 0;
    forall k ensures k in combined <==> k == 0 {
      ElevationsInNonEmpty(AllPoints(NoShadowDatasets), k);
    }
    assert combined[0] == [0.0];
    assert Mean([0.0]) == 0.0;
  }

  /** The skyline `removeShadowing` installs: bucket 0 at elevation 0 and every other bucket
      indeterminate, since the only observed bucket is its own left and right neighbour. */
  function NoShadowSkyline(): (sky: Skyline)
    ensures forall k :: k in sky <==> IsBucket(k)
    ensures 0 in sky && sky[0] == Elevation(0.0)
    ensures forall k :: 1 <= k < 360 ==> k in sky && sky[k] == Indeterminate
  {
    NoShadowAveraged();
    SingleObservation(map[0 := 0.0], 0);
    GetSingleDatasetForPvModule(NoShadowDatasets)
  }

  /** `removeShadowing`: only the skyline changes. */
  function RemoveShadowing(m: PvModule): (r: PvModule)
    ensures r.dcRating == m.dcRating && r.azimuth == m.azimuth && r.tilt == m.tilt
    ensures forall k :: k in r.skyline <==> IsBucket(k)
    ensures 0 in r.skyline && r.skyline[0] == Elevation(0.0)
    ensures forall k :: 1 <= k < 360 ==> k in r.skyline && r.skyline[k] == Indeterminate
  {
    m.(skyline := NoShadowSkyline())
  }

  /** `getShadowingElevationForAzimuth`: the lookup fails (a null unboxing in Java) when the
      bucket is not in the skyline. */
  function GetShadowingElevationForAzimuth(m: PvModule, azimuth: int): (r: Result<SkylineValue>)
    ensures r.Ok? <==> azimuth in m.skyline
    ensures r.Ok? ==> r.value == m.skyline[azimuth]
    ensures r.Err? ==> r.failure == MissingSkylineBucket(azimuth)
  {
    if azimuth in m.skyline then Ok(m.skyline[azimuth]) else Err(MissingSkylineBucket(azimuth))
  }
}
