/**
 * The personalised speed estimate: a recency-weighted mean of the recorded
 * walk speeds blended with the user's baseline, scaled by the terrain factor
 * and floored at 1 km/h; and the mean of the most recent walks.
 */
module SpeedModel {

  import opened Stats
  import opened Walks
  import opened Sequences

  /** With fewer recorded walks than this, the baseline alone is used. */
  const LearningThreshold: nat := 3
  /** Walk `i` (0 = oldest) weighs `RecencyBase^i`. */
  const RecencyBase: real := 1.1
  const LearnedShare: real := 0.8
  const BaselineShare: real := 0.2
  /** The estimate never drops below this many km/h. */
  const MinEstimate: real := 1.0
  /** How many of the latest walks the recent average looks at. */
  const RecentWindow: nat := 5
  /** The recent average of an empty history. */
  const DefaultRecentSpeed: real := 5.5

  function Pow(b: real, n: nat): real
  {
    if n == 0 then 1.0 else b * Pow(b, n - 1)
  }

  lemma {:induction false} PowAtLeastOne(b: real, n: nat)
    requires b >= 1.0
    ensures Pow(b, n) >= 1.0
  {
    if n > 0 {
      PowAtLeastOne(b, n - 1);
    }
  }

  /** `Math.pow(1.1, i)`, the weight of the walk at index `i`. */
  function Weight(i: nat): (w: real)
    ensures w >= 1.0
  {
    PowAtLeastOne(RecencyBase, i);
    Pow(RecencyBase, i)
  }

  /** A later walk always weighs strictly more than an earlier one. */
  lemma {:induction false} WeightIncreasing(i: nat, j: nat)
    requires i < j
    ensures Weight(i) < Weight(j)
    decreases j
  {
    assert Weight(j) == RecencyBase * Weight(j - 1);
    if i < j - 1 {
      WeightIncreasing(i, j - 1);
    }
  }

  /** `Σ speed_i * weight_i` over the whole history, oldest first. */
  function WeightedSum(h: seq<WalkRecord>): real
  {
    if |h| == 0 then 0.0
    else WeightedSum(h[..|h| - 1]) + h[|h| - 1].speed * Weight(|h| - 1)
  }

  /** `Σ weight_i` for the first `n` walks; at least one per walk. */
  function TotalWeight(n: nat): (t: real)
    ensures t >= n as real
  {
    if n == 0 then 0.0 else TotalWeight(n - 1) + Weight(n - 1)
  }

  /** The recency-weighted mean of the recorded speeds. */
  function LearnedSpeed(h: seq<WalkRecord>): real
    requires |h| > 0
  {
    WeightedSum(h) / TotalWeight(|h|)
  }

  /**
   * The personalised speed for the history `h`, the baseline speed and the
   * terrain factor read from the controls.
   */
  function PersonalizedSpeed(h: seq<WalkRecord>, baseSpeed: real, terrainFactor: real): (r: real)
    ensures r >= MinEstimate
    ensures |h| < LearningThreshold ==> r == Max(MinEstimate, baseSpeed * terrainFactor)
  {
    if |h| >= LearningThreshold then
      var blended := LearnedSpeed(h) * LearnedShare + baseSpeed * BaselineShare;
      Max(MinEstimate, blended * terrainFactor)
    else
      Max(MinEstimate, baseSpeed * terrainFactor)
  }

  /**
   * Recording one more walk moves the learned speed towards that walk's speed
   * without passing it.
   */
  lemma LearnedSpeedMovesToward(h: seq<WalkRecord>, w: WalkRecord)
    requires |h| > 0
    ensures var before, after := LearnedSpeed(h), LearnedSpeed(h + [w]);
      (w.speed >= before ==> before <= after <= w.speed) &&
      (w.speed <= before ==> w.speed <= after <= before)
  {
    var h' := h + [w];
    assert h'[..|h|] == h;
    var t, wt := TotalWeight(|h|), Weight(|h|);
    var l := LearnedSpeed(h);
    assert WeightedSum(h) == l * t;
    assert WeightedSum(h') == l * t + w.speed * wt;
    assert TotalWeight(|h'|) == t + wt;
    if w.speed >= l {
      DivideBounds(WeightedSum(h'), t + wt, l, w.speed);
    } else {
      DivideBounds(WeightedSum(h'), t + wt, w.speed, l);
    }
  }

  /** Recording walk `w` after `h` adds its speed at weight `1.1^|h|` to the weighted sum. */
  lemma {:induction false} WeightedSumAppend(h: seq<WalkRecord>, w: WalkRecord)
    ensures WeightedSum(h + [w]) == WeightedSum(h) + w.speed * Weight(|h|)
  {
    assert (h + [w])[..|h|] == h;
  }

  /**
   * The learned speed after one more walk: the old weighted sum plus the new
   * speed at weight `1.1^n`, over the old total weight plus `1.1^n`.
   */
  lemma {:induction false} LearnedSpeedStep(h: seq<WalkRecord>, w: WalkRecord)
    requires |h| > 0
    ensures LearnedSpeed(h + [w]) * (TotalWeight(|h|) + Weight(|h|))
            == LearnedSpeed(h) * TotalWeight(|h|) + w.speed * Weight(|h|)
  {
    var t, a := TotalWeight(|h|), Weight(|h|);
    WeightedSumAppend(h, w);
    assert TotalWeight(|h + [w]|) == t + a;
    assert WeightedSum(h) / t * t == WeightedSum(h);
    assert WeightedSum(h + [w]) / (t + a) * (t + a) == WeightedSum(h + [w]);
  }

  /**
   * Of two walks recorded one after the other, the later one pulls the
   * learned speed harder: recording the faster one second gives a strictly
   * higher estimate than recording it first.
   */
  lemma {:induction false} NewerWalkPullsHarder(h: seq<WalkRecord>, slower: WalkRecord, faster: WalkRecord)
    requires slower.speed < faster.speed
    ensures LearnedSpeed(h + [slower, faster]) > LearnedSpeed(h + [faster, slower])
  {
    var n := |h|;
    assert h + [slower, faster] == (h + [slower]) + [faster];
    assert h + [faster, slower] == (h + [faster]) + [slower];
    WeightedSumAppend(h, slower);
    WeightedSumAppend(h + [slower], faster);
    WeightedSumAppend(h, faster);
    WeightedSumAppend(h + [faster], slower);
    var a, b := Weight(n), Weight(n + 1);
    WeightIncreasing(n, n + 1);
    GainOfSwap(slower.speed, faster.speed, a, b);
    DivideStrictly(WeightedSum(h + [faster, slower]), WeightedSum(h + [slower, faster]), TotalWeight(n + 2));
  }

  lemma GainOfSwap(x: real, y: real, a: real, b: real)
    requires x < y && a < b
    ensures x * a + y * b > y * a + x * b
  {
    assert (x * a + y * b) - (y * a + x * b) == (y - x) * (b - a);
  }

  lemma DivideStrictly(x: real, y: real, t: real)
    requires x < y && t > 0.0
    ensures x / t < y / t
  {
    assert y / t - x / t == (y - x) / t;
  }

  /** With a single recorded walk, the learned speed is that walk's speed. */
  lemma LearnedSpeedSingle(h: seq<WalkRecord>)
    requires |h| == 1
    ensures LearnedSpeed(h) == h[0].speed
  {
    assert Weight(0) == 1.0;
    assert WeightedSum(h) == h[0].speed;
    assert TotalWeight(1) == 1.0;
  }

  /** The learned speed lies between the slowest and the fastest recorded walk. */
  lemma {:induction false} LearnedSpeedWithin(h: seq<WalkRecord>, lo: real, hi: real)
    requires |h| > 0
    requires forall i :: 0 <= i < |h| ==> lo <= h[i].speed <= hi
    ensures lo <= LearnedSpeed(h) <= hi
  {
    var n := |h| - 1;
    if n == 0 {
      LearnedSpeedSingle(h);
    } else {
      var p := h[..n];
      LearnedSpeedWithin(p, lo, hi);
      LearnedSpeedMovesToward(p, h[n]);
      assert p + [h[n]] == h;
    }
  }

  /**
   * With enough history and a non-negative terrain factor, the estimate lies
   * between the blends computed from the slowest and from the fastest walk.
   */
  lemma PersonalizedSpeedWithin(h: seq<WalkRecord>, baseSpeed: real, terrainFactor: real, lo: real, hi: real)
    requires |h| >= LearningThreshold
    requires terrainFactor >= 0.0
    requires forall i :: 0 <= i < |h| ==> lo <= h[i].speed <= hi
    ensures Max(MinEstimate, (lo * LearnedShare + baseSpeed * BaselineShare) * terrainFactor)
            <= PersonalizedSpeed(h, baseSpeed, terrainFactor)
            <= Max(MinEstimate, (hi * LearnedShare + baseSpeed * BaselineShare) * terrainFactor)
  {
    LearnedSpeedWithin(h, lo, hi);
    var l := LearnedSpeed(h);
    var b := baseSpeed * BaselineShare;
    assert (l * LearnedShare + b - (lo * LearnedShare + b)) * terrainFactor >= 0.0;
    assert (hi * LearnedShare + b - (l * LearnedShare + b)) * terrainFactor >= 0.0;
  }

  /** When every recorded walk has the same speed `v`, the learned speed is `v`. */
  lemma UniformHistory(h: seq<WalkRecord>, baseSpeed: real, terrainFactor: real, v: real)
    requires |h| >= LearningThreshold
    requires forall i :: 0 <= i < |h| ==> h[i].speed == v
    ensures PersonalizedSpeed(h, baseSpeed, terrainFactor)
            == Max(MinEstimate, (v * LearnedShare + baseSpeed * BaselineShare) * terrainFactor)
  {
    LearnedSpeedWithin(h, v, v);
  }

  /** The speeds of the given walks, in order. */
  function Speeds(h: seq<WalkRecord>): (s: seq<real>)
    ensures |s| == |h|
  {
    seq(|h|, i requires 0 <= i < |h| => h[i].speed)
  }

  /** `h.slice(-5)`: the last five walks, or all of them when there are fewer. */
  function RecentWalks(h: seq<WalkRecord>): (r: seq<WalkRecord>)
    ensures |r| == if |h| < RecentWindow then |h| else RecentWindow
    ensures r == h[|h| - |r|..]
  {
    if |h| <= RecentWindow then h else h[|h| - RecentWindow..]
  }

  /** `RecentWalks` is the generic last-`n` of a sequence, taken with `n = 5`. */
  lemma RecentWalksIsLastN(h: seq<WalkRecord>)
    ensures RecentWalks(h) == LastN(h, RecentWindow)
  {
  }

  /** The mean speed of the last (up to five) walks, or 5.5 km/h with no history. */
  function RecentAverageSpeed(h: seq<WalkRecord>): (r: real)
    ensures |h| == 0 ==> r == DefaultRecentSpeed
  {
    if |h| == 0 then DefaultRecentSpeed else Mean(Speeds(RecentWalks(h)))
  }

  /** The recent average lies between the slowest and fastest of the last five walks. */
  lemma RecentAverageWithin(h: seq<WalkRecord>, lo: real, hi: real)
    requires |h| > 0
    requires forall i :: |h| - |RecentWalks(h)| <= i < |h| ==> lo <= h[i].speed <= hi
    ensures lo <= RecentAverageSpeed(h) <= hi
  {
    var recent := RecentWalks(h);
    var s := Speeds(recent);
    forall i | 0 <= i < |s|
      ensures lo <= s[i] <= hi
    {
      assert s[i] == h[|h| - |recent| + i].speed;
    }
    MeanWithin(s, lo, hi);
  }

  /** Walks older than the last five do not affect the recent average. */
  lemma RecentAverageIgnoresOlder(older: seq<WalkRecord>, h: seq<WalkRecord>)
    requires |h| >= RecentWindow
    ensures RecentAverageSpeed(older + h) == RecentAverageSpeed(h)
  {
    assert RecentWalks(older + h) == RecentWalks(h);
  }

  /** `(distanceKm / speedKmh) * 60`: minutes to cover a distance at a speed. */
  function ProjectedMinutes(distanceKm: real, speedKmh: real): (m: real)
    requires speedKmh > 0.0
    ensures distanceKm >= 0.0 ==> m >= 0.0
    ensures m * speedKmh == distanceKm * 60.0
    ensures distanceKm >= 0.0 && speedKmh >= MinEstimate ==> m <= distanceKm * 60.0
  {
    assert distanceKm / speedKmh * speedKmh == distanceKm;
    (distanceKm / speedKmh) * 60.0
  }

  /**
   * The personalised estimate can always be divided by, and a route of `d` km
   * is never projected to take more than `60 * d` minutes.
   */
  lemma ProjectionWellDefined(h: seq<WalkRecord>, baseSpeed: real, terrainFactor: real, d: real)
    requires d >= 0.0
    ensures var v := PersonalizedSpeed(h, baseSpeed, terrainFactor);
      v > 0.0 && 0.0 <= ProjectedMinutes(d, v) <= d * 60.0
  {
  }
}
