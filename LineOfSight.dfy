/**
 The Monte Carlo line-of-sight estimator: for each candidate binary, the
 fraction of simulated stars, placed in a box around it, that land closer
 than a threshold to some field star ("secondary") found in that box.

 Numbers are Dafny `real`s; cosine and square root come from a `Maths`
 record (see module Numerics). The random draws of the original are an
 input: one sequence of sample points per target, each point lying within
 the target's box.
 */
module LineOfSight {
  import opened Numerics

  /** A sky position in decimal degrees. */
  datatype SkyPoint = SkyPoint(ra: real, dec: real)

  /** The four-element coordinate range [min RA, max RA, min Dec, max Dec], in degrees. */
  datatype CoordRange = CoordRange(minRA: real, maxRA: real, minDec: real, maxDec: real)

  const ArcminutesPerDegree: real := 60.0
  const ArcsecondsPerDegree: real := 3600.0

  // ---------------------------------------------------------------------
  // Bounding box

  /**
   The box around a binary at (binRA, binDec) for a radius of `dist`
   arcminutes. RA is widened by the radius scaled by the cosine of the
   declination; the two declination candidates are put in order by an
   explicit comparison.
   */
  function CalcCoordRange(m: Maths, binRA: real, binDec: real, dist: real): (r: CoordRange)
    ensures r.minDec <= r.maxDec
    ensures var decA, decB := binDec - dist / ArcminutesPerDegree, binDec + dist / ArcminutesPerDegree;
            (r.minDec == decA && r.maxDec == decB) || (r.minDec == decB && r.maxDec == decA)
    ensures r.minRA + r.maxRA == 2.0 * binRA
    ensures r.maxRA - r.minRA == 2.0 * (dist / ArcminutesPerDegree) * m.cosDeg(binDec)
    // with a non-negative radius and a declination in [-90, 90] the RA bounds are ordered too
    ensures m.Valid() && 0.0 <= dist && -90.0 <= binDec <= 90.0 ==> r.minRA <= r.maxRA
    // with a positive radius strictly between the poles the box is not degenerate:
    // the binary itself lies strictly inside it
    ensures m.Valid() && 0.0 < dist && -90.0 < binDec < 90.0 ==> InRange(SkyPoint(binRA, binDec), r)
  {
    var distDeg := dist / ArcminutesPerDegree;
    var minRA := binRA - distDeg * m.cosDeg(binDec);
    var maxRA := binRA + distDeg * m.cosDeg(binDec);
    var decA := binDec - distDeg;
    var decB := binDec + distDeg;
    assert m.Valid() && 0.0 < dist && -90.0 < binDec < 90.0 ==> 0.0 < distDeg * m.cosDeg(binDec) by {
      if m.Valid() && 0.0 < dist && -90.0 < binDec < 90.0 {
        MulPos(distDeg, m.cosDeg(binDec));
      }
    }
    if decA < decB then CoordRange(minRA, maxRA, decA, decB)
    else CoordRange(minRA, maxRA, decB, decA)
  }

  // ---------------------------------------------------------------------
  // Strict box filter

  /** Strictly inside all four bounds; a point on an edge is outside. */
  predicate InRange(p: SkyPoint, box: CoordRange) {
    box.minRA < p.ra < box.maxRA && box.minDec < p.dec < box.maxDec
  }

  /** The secondaries inside the box, in catalog order (the boolean mask of the source). */
  function SelectSecondaries(secondaries: seq<SkyPoint>, box: CoordRange): (r: seq<SkyPoint>)
    ensures |r| <= |secondaries|
    ensures forall p :: p in r <==> p in secondaries && InRange(p, box)
  {
    if secondaries == [] then []
    else
      var rest := SelectSecondaries(secondaries[1..], box);
      assert secondaries == [secondaries[0]] + secondaries[1..];
      if InRange(secondaries[0], box) then [secondaries[0]] + rest else rest
  }

  /** Each point inside the box is kept as often as it occurs; every other point is dropped. */
  lemma {:induction false} SelectSecondariesCounts(secondaries: seq<SkyPoint>, box: CoordRange, p: SkyPoint)
    ensures multiset(SelectSecondaries(secondaries, box))[p]
         == if InRange(p, box) then multiset(secondaries)[p] else 0
  {
    if secondaries != [] {
      SelectSecondariesCounts(secondaries[1..], box, p);
      assert secondaries == [secondaries[0]] + secondaries[1..];
    }
  }

  /** A catalog with no point inside the box yields nothing. */
  lemma {:induction false} SelectSecondariesNone(secondaries: seq<SkyPoint>, box: CoordRange)
    requires forall k :: 0 <= k < |secondaries| ==> !InRange(secondaries[k], box)
    ensures SelectSecondaries(secondaries, box) == []
  {
    if secondaries != [] {
      SelectSecondariesNone(secondaries[1..], box);
    }
  }

  /** `r` is `s` indexed by the strictly increasing positions `idx`. */
  ghost predicate IndexedSubsequence<T>(r: seq<T>, s: seq<T>, idx: seq<int>) {
    |idx| == |r|
    && (forall k :: 0 <= k < |idx| ==> 0 <= idx[k] < |s| && r[k] == s[idx[k]])
    && (forall k, l :: 0 <= k < l < |idx| ==> idx[k] < idx[l])
  }

  /** Every position moved one place to the right. */
  function Shift(positions: seq<int>): (r: seq<int>)
    ensures |r| == |positions|
  {
    seq(|positions|, k requires 0 <= k < |positions| => positions[k] + 1)
  }

  /** The positions, in increasing order, at which the mask `InRange(_, box)` is true. */
  ghost function MaskPositions(secondaries: seq<SkyPoint>, box: CoordRange): seq<int> {
    if secondaries == [] then []
    else
      var tail := Shift(MaskPositions(secondaries[1..], box));
      if InRange(secondaries[0], box) then [0] + tail else tail
  }

  /** Positions into `s[1..]` become positions into `s` by adding one. */
  lemma ShiftIndices<T>(r: seq<T>, s: seq<T>, tail: seq<int>)
    requires |s| > 0 && IndexedSubsequence(r, s[1..], tail)
    ensures IndexedSubsequence(r, s, Shift(tail))
    ensures forall k :: 0 <= k < |tail| ==> 1 <= Shift(tail)[k]
    ensures forall i :: 1 <= i < |s| ==> (i in Shift(tail) <==> i - 1 in tail)
  {
    var shifted := Shift(tail);
    forall i | 1 <= i < |s|
      ensures i in shifted <==> i - 1 in tail
    {
      if i - 1 in tail {
        var k :| 0 <= k < |tail| && tail[k] == i - 1;
        assert shifted[k] == i;
      }
    }
  }

  /** Taking position 0 in front of later positions keeps the indexing ordered. */
  lemma PrependIndex<T>(r: seq<T>, s: seq<T>, shifted: seq<int>)
    requires |s| > 0 && IndexedSubsequence(r, s, shifted)
    requires forall k :: 0 <= k < |shifted| ==> 1 <= shifted[k]
    ensures IndexedSubsequence([s[0]] + r, s, [0] + shifted)
  {
  }

  /**
   The filter is a mask: its output is the input read at the positions
   where the mask is true, in increasing order, and those are exactly the
   positions whose point is inside the box.
   */
  lemma {:induction false} SelectSecondariesIsMask(secondaries: seq<SkyPoint>, box: CoordRange)
    ensures IndexedSubsequence(SelectSecondaries(secondaries, box), secondaries, MaskPositions(secondaries, box))
    ensures forall i :: 0 <= i < |secondaries| ==>
              (i in MaskPositions(secondaries, box) <==> InRange(secondaries[i], box))
  {
    if secondaries != [] {
      var rest := SelectSecondaries(secondaries[1..], box);
      var tail := MaskPositions(secondaries[1..], box);
      SelectSecondariesIsMask(secondaries[1..], box);
      ShiftIndices(rest, secondaries, tail);
      var shifted := Shift(tail);
      assert 0 !in shifted;
      if InRange(secondaries[0], box) {
        PrependIndex(rest, secondaries, shifted);
        assert SelectSecondaries(secondaries, box) == [secondaries[0]] + rest;
        assert MaskPositions(secondaries, box) == [0] + shifted;
        assert forall i :: 0 <= i < |secondaries| ==> (i in [0] + shifted <==> i == 0 || i in shifted);
      } else {
        assert SelectSecondaries(secondaries, box) == rest;
        assert MaskPositions(secondaries, box) == shifted;
      }
    }
  }

  // ---------------------------------------------------------------------
  // Flat-sky distance

  /**
   The squared flat-sky separation of `b` from `a`: the RA difference is
   scaled by the cosine of the declination of `a` only.
   */
  function SqSeparation(m: Maths, a: SkyPoint, b: SkyPoint): (r: real)
    ensures 0.0 <= r
  {
    Sq((a.ra - b.ra) * m.cosDeg(a.dec)) + Sq(a.dec - b.dec)
  }

  /** The flat-sky separation of `b` from `a`, in degrees: the square root of `SqSeparation`. */
  function SeparationDist(m: Maths, a: SkyPoint, b: SkyPoint): (r: real)
    requires m.Valid()
    ensures 0.0 <= r
    ensures r == 0.0 <==> SqSeparation(m, a, b) == 0.0
  {
    var sq := SqSeparation(m, a, b);
    SqrtZeroIff(m, sq);
    m.sqrt(sq)
  }

  /**
   Away from the poles the flat-sky distance separates points: it is zero
   exactly when the two positions coincide.
   */
  lemma SeparationZeroIffSame(m: Maths, a: SkyPoint, b: SkyPoint)
    requires m.Valid() && -90.0 < a.dec < 90.0
    ensures SeparationDist(m, a, b) == 0.0 <==> a == b
  {
    var x := (a.ra - b.ra) * m.cosDeg(a.dec);
    var y := a.dec - b.dec;
    assert SqSeparation(m, a, b) == Sq(x) + Sq(y);
    if SeparationDist(m, a, b) == 0.0 {
      assert Sq(x) == 0.0 && Sq(y) == 0.0;
      ScaledSqZero(a.ra - b.ra, m.cosDeg(a.dec));
      SqZero(y);
    }
  }

  /**
   At a pole the cosine vanishes, so the flat-sky distance no longer
   separates points: two different right ascensions at declination 90 are
   at distance zero.
   */
  lemma PoleSeparationZero(m: Maths)
    requires m.Valid() && m.cosDeg(90.0) == 0.0
    ensures SkyPoint(0.0, 90.0) != SkyPoint(5.0, 90.0)
    ensures SeparationDist(m, SkyPoint(0.0, 90.0), SkyPoint(5.0, 90.0)) == 0.0
  {
    assert SqSeparation(m, SkyPoint(0.0, 90.0), SkyPoint(5.0, 90.0)) == Sq(-5.0 * 0.0) + Sq(0.0);
  }

  /** The distance, in degrees, from `starA` to each of `stars`. */
  function CalcDist(m: Maths, starA: SkyPoint, stars: seq<SkyPoint>): (r: seq<real>)
    requires m.Valid()
    ensures |r| == |stars|
    ensures forall i :: 0 <= i < |r| ==> r[i] == SeparationDist(m, starA, stars[i])
    ensures forall i :: 0 <= i < |r| ==> 0.0 <= r[i]
    ensures forall i :: 0 <= i < |r| && stars[i] == starA ==> r[i] == 0.0
  {
    seq(|stars|, i requires 0 <= i < |stars| => SeparationDist(m, starA, stars[i]))
  }

  /** Degrees to arcseconds, element by element. */
  function ToArcseconds(ds: seq<real>): seq<real> {
    seq(|ds|, i requires 0 <= i < |ds| => ds[i] * ArcsecondsPerDegree)
  }

  // ---------------------------------------------------------------------
  // Trial counter

  /**
   One trial succeeds when the distance list to the secondaries is
   non-empty and its minimum, in arcseconds, is strictly below `distLOS`.
   */
  predicate IsHit(m: Maths, sample: SkyPoint, secondaries: seq<SkyPoint>, distLOS: real)
    requires m.Valid()
  {
    var dists := ToArcseconds(CalcDist(m, sample, secondaries));
    |dists| > 0 && Min(dists) < distLOS
  }

  /** A trial succeeds exactly when some secondary lies closer than `distLOS` arcseconds. */
  lemma IsHitIff(m: Maths, sample: SkyPoint, secondaries: seq<SkyPoint>, distLOS: real)
    requires m.Valid()
    ensures IsHit(m, sample, secondaries, distLOS)
        <==> exists j :: 0 <= j < |secondaries|
               && SeparationDist(m, sample, secondaries[j]) * ArcsecondsPerDegree < distLOS
  {
    var dists := ToArcseconds(CalcDist(m, sample, secondaries));
    assert forall j :: 0 <= j < |secondaries| ==>
      dists[j] == SeparationDist(m, sample, secondaries[j]) * ArcsecondsPerDegree;
    if |dists| > 0 {
      MinBelow(dists, distLOS);
    }
  }

  /** The number of succeeding trials among `samples`. */
  function Hits(m: Maths, samples: seq<SkyPoint>, secondaries: seq<SkyPoint>, distLOS: real): (n: nat)
    requires m.Valid()
    ensures n <= |samples|
  {
    if samples == [] then 0
    else
      Hits(m, samples[..|samples| - 1], secondaries, distLOS)
        + (if IsHit(m, samples[|samples| - 1], secondaries, distLOS) then 1 else 0)
  }

  /** The estimated line-of-sight probability: succeeding trials over all trials. */
  function LOSFraction(m: Maths, samples: seq<SkyPoint>, secondaries: seq<SkyPoint>, distLOS: real): (r: real)
    requires m.Valid() && |samples| > 0
    ensures 0.0 <= r <= 1.0
  {
    var hits := Hits(m, samples, secondaries, distLOS);
    RatioInUnit(hits, |samples|);
    hits as real / |samples| as real
  }

  /** When no trial can succeed, nothing is counted. */
  lemma {:induction false} HitsNone(m: Maths, samples: seq<SkyPoint>, secondaries: seq<SkyPoint>, distLOS: real)
    requires m.Valid()
    requires forall k :: 0 <= k < |samples| ==> !IsHit(m, samples[k], secondaries, distLOS)
    ensures Hits(m, samples, secondaries, distLOS) == 0
  {
    if samples != [] {
      HitsNone(m, samples[..|samples| - 1], secondaries, distLOS);
    }
  }

  /** When every trial succeeds, every trial is counted. */
  lemma {:induction false} HitsAll(m: Maths, samples: seq<SkyPoint>, secondaries: seq<SkyPoint>, distLOS: real)
    requires m.Valid()
    requires forall k :: 0 <= k < |samples| ==> IsHit(m, samples[k], secondaries, distLOS)
    ensures Hits(m, samples, secondaries, distLOS) == |samples|
  {
    if samples != [] {
      HitsAll(m, samples[..|samples| - 1], secondaries, distLOS);
    }
  }

  /** Without secondaries no trial passes the non-empty guard, so the estimate is exactly zero. */
  lemma NoSecondariesZero(m: Maths, samples: seq<SkyPoint>, distLOS: real)
    requires m.Valid() && |samples| > 0
    ensures LOSFraction(m, samples, [], distLOS) == 0.0
  {
    HitsNone(m, samples, [], distLOS);
  }

  /** A wider threshold never yields fewer succeeding trials. */
  lemma {:induction false} HitsMonotone(m: Maths, samples: seq<SkyPoint>, secondaries: seq<SkyPoint>, d1: real, d2: real)
    requires m.Valid() && d1 <= d2
    ensures Hits(m, samples, secondaries, d1) <= Hits(m, samples, secondaries, d2)
  {
    if samples != [] {
      HitsMonotone(m, samples[..|samples| - 1], secondaries, d1, d2);
    }
  }

  /** For fixed draws, the estimate is monotone non-decreasing in the threshold. */
  lemma LOSFractionMonotone(m: Maths, samples: seq<SkyPoint>, secondaries: seq<SkyPoint>, d1: real, d2: real)
    requires m.Valid() && |samples| > 0 && d1 <= d2
    ensures LOSFraction(m, samples, secondaries, d1) <= LOSFraction(m, samples, secondaries, d2)
  {
    HitsMonotone(m, samples, secondaries, d1, d2);
    DivMonotone(Hits(m, samples, secondaries, d1), Hits(m, samples, secondaries, d2), |samples|);
  }

  /** `x` lies between the two bounds, in whichever order they are given. */
  predicate Between(x: real, lo: real, hi: real) {
    (lo <= x <= hi) || (hi <= x <= lo)
  }

  /** A sample that `np.random.uniform` can return for this box. */
  predicate Drawable(p: SkyPoint, box: CoordRange) {
    Between(p.ra, box.minRA, box.maxRA) && Between(p.dec, box.minDec, box.maxDec)
  }

  /**
   The Monte Carlo loop: for each of the `nRuns` draws in `samples`, count
   a line-of-sight companion when the distance list is non-empty and its
   minimum in arcseconds is below `distLOS`; return the count over `nRuns`.
   */
  method CalcLOS(m: Maths, box: CoordRange, secondaries: seq<SkyPoint>, nRuns: nat, distLOS: real,
                 samples: seq<SkyPoint>) returns (losPercent: real)
    requires m.Valid()
    requires nRuns > 0 && |samples| == nRuns
    requires forall k :: 0 <= k < |samples| ==> Drawable(samples[k], box)
    ensures losPercent == LOSFraction(m, samples, secondaries, distLOS)
    ensures 0.0 <= losPercent <= 1.0
    ensures secondaries == [] ==> losPercent == 0.0
  {
    var los: nat := 0;
    for i := 0 to nRuns
      invariant los <= i
      invariant los == Hits(m, samples[..i], secondaries, distLOS)
    {
      var sample := samples[i];
      var dists := ToArcseconds(CalcDist(m, sample, secondaries));
      if |dists| > 0 {
        if Min(dists) < distLOS {
          los := los + 1;
        }
      }
      assert samples[..i + 1][..i] == samples[..i];
    }
    assert samples[..nRuns] == samples;
    losPercent := los as real / nRuns as real;
    if secondaries == [] {
      NoSecondariesZero(m, samples, distLOS);
    }
  }

  // ---------------------------------------------------------------------
  // Batch driver

  /** The box around one target. */
  function TargetBox(m: Maths, target: SkyPoint, distSurvey: real): CoordRange {
    CalcCoordRange(m, target.ra, target.dec, distSurvey)
  }

  /** The estimate for one target: its box, the secondaries inside it, and its own draws. */
  function TargetLOS(m: Maths, target: SkyPoint, secondaries: seq<SkyPoint>, distLOS: real,
                     distSurvey: real, samples: seq<SkyPoint>): real
    requires m.Valid() && |samples| > 0
  {
    LOSFraction(m, samples, SelectSecondaries(secondaries, TargetBox(m, target, distSurvey)), distLOS)
  }

  /** What the driver's parameters must satisfy: one set of `nRuns` in-box draws per target. */
  ghost predicate ValidDraws(m: Maths, nRuns: nat, distSurvey: real, unknownBinaries: seq<SkyPoint>,
                             draws: seq<seq<SkyPoint>>)
  {
    (nRuns > 0 || unknownBinaries == [])
    && |draws| == |unknownBinaries|
    && forall i :: 0 <= i < |draws| ==>
         |draws[i]| == nRuns
         && forall k :: 0 <= k < nRuns ==> Drawable(draws[i][k], TargetBox(m, unknownBinaries[i], distSurvey))
  }

  /** The draws of target `i` are `nRuns` points of that target's box. */
  lemma DrawsOfTarget(m: Maths, nRuns: nat, distSurvey: real, unknownBinaries: seq<SkyPoint>,
                      draws: seq<seq<SkyPoint>>, i: int)
    requires ValidDraws(m, nRuns, distSurvey, unknownBinaries, draws) && 0 <= i < |unknownBinaries|
    ensures |draws[i]| == nRuns > 0
    ensures forall k :: 0 <= k < |draws[i]| ==> Drawable(draws[i][k], TargetBox(m, unknownBinaries[i], distSurvey))
  {
  }

  /** The results of the whole batch: one estimate per unknown binary, in input order. */
  function EstimateAll(m: Maths, nRuns: nat, distLOS: real, distSurvey: real, unknownBinaries: seq<SkyPoint>,
                       secondaries: seq<SkyPoint>, draws: seq<seq<SkyPoint>>): (r: seq<real>)
    requires m.Valid() && ValidDraws(m, nRuns, distSurvey, unknownBinaries, draws)
    ensures |r| == |unknownBinaries|
    ensures forall i :: 0 <= i < |r| ==>
              r[i] == TargetLOS(m, unknownBinaries[i], secondaries, distLOS, distSurvey, draws[i])
    ensures forall i :: 0 <= i < |r| ==> 0.0 <= r[i] <= 1.0
  {
    seq(|unknownBinaries|, i requires 0 <= i < |unknownBinaries| =>
      TargetLOS(m, unknownBinaries[i], secondaries, distLOS, distSurvey, draws[i]))
  }

  /** One iteration of the driver: box, filter, then the Monte Carlo count for that target. */
  method EstimateTarget(m: Maths, target: SkyPoint, secondaries: seq<SkyPoint>, nRuns: nat, distLOS: real,
                        distSurvey: real, samples: seq<SkyPoint>) returns (losCalc: real)
    requires m.Valid() && nRuns > 0 && |samples| == nRuns
    requires forall k :: 0 <= k < |samples| ==>
               Drawable(samples[k], TargetBox(m, target, distSurvey))
    ensures losCalc == TargetLOS(m, target, secondaries, distLOS, distSurvey, samples)
  {
    var coordRange := TargetBox(m, target, distSurvey);
    var selected := SelectSecondaries(secondaries, coordRange);
    losCalc := CalcLOS(m, coordRange, selected, nRuns, distLOS, samples);
  }

  /**
   The batch driver: allocates one result per unknown binary and fills it,
   index by index, with that target's estimate.
   */
  method CalcLOSPercent(m: Maths, nRuns: nat, distLOS: real, distSurvey: real, unknownBinaries: seq<SkyPoint>,
                        secondaries: seq<SkyPoint>, draws: seq<seq<SkyPoint>>) returns (losResults: array<real>)
    requires m.Valid() && ValidDraws(m, nRuns, distSurvey, unknownBinaries, draws)
    ensures fresh(losResults)
    ensures losResults.Length == |unknownBinaries|
    ensures losResults[..] == EstimateAll(m, nRuns, distLOS, distSurvey, unknownBinaries, secondaries, draws)
  {
    ghost var expected := EstimateAll(m, nRuns, distLOS, distSurvey, unknownBinaries, secondaries, draws);
    losResults := new real[|unknownBinaries|](_ => 0.0);
    for i := 0 to |unknownBinaries|
      invariant losResults[..i] == expected[..i]
    {
      DrawsOfTarget(m, nRuns, distSurvey, unknownBinaries, draws, i);
      var losCalc := EstimateTarget(m, unknownBinaries[i], secondaries, nRuns, distLOS, distSurvey, draws[i]);
      losResults[i] := losCalc;
      assert losResults[..i + 1] == expected[..i] + [losCalc];
    }
    assert losResults[..] == losResults[..|unknownBinaries|];
  }
}
