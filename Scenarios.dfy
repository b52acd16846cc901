/**
 Whole-batch consequences of the estimator's definitions: targets with no
 secondary in their box get exactly zero, and a target that coincides with
 a secondary gets exactly one when the threshold exceeds the box's size.
 */
module Scenarios {
  import opened Numerics
  import opened LineOfSight

  /** A target whose box holds no secondary is estimated at exactly zero, whatever the draws. */
  lemma NoSecondaryInBoxZero(m: Maths, nRuns: nat, distLOS: real, distSurvey: real,
                             unknownBinaries: seq<SkyPoint>, secondaries: seq<SkyPoint>,
                             draws: seq<seq<SkyPoint>>, i: int)
    requires m.Valid() && ValidDraws(m, nRuns, distSurvey, unknownBinaries, draws)
    requires 0 <= i < |unknownBinaries|
    requires forall k :: 0 <= k < |secondaries| ==> !InRange(secondaries[k], TargetBox(m, unknownBinaries[i], distSurvey))
    ensures EstimateAll(m, nRuns, distLOS, distSurvey, unknownBinaries, secondaries, draws)[i] == 0.0
  {
    SelectSecondariesNone(secondaries, TargetBox(m, unknownBinaries[i], distSurvey));
    NoSecondariesZero(m, draws[i], distLOS);
  }

  /** With an empty secondary catalog every estimate is exactly zero. */
  lemma EmptyCatalogAllZero(m: Maths, nRuns: nat, distLOS: real, distSurvey: real,
                            unknownBinaries: seq<SkyPoint>, draws: seq<seq<SkyPoint>>)
    requires m.Valid() && ValidDraws(m, nRuns, distSurvey, unknownBinaries, draws)
    ensures forall i :: 0 <= i < |unknownBinaries| ==>
              EstimateAll(m, nRuns, distLOS, distSurvey, unknownBinaries, [], draws)[i] == 0.0
  {
    forall i | 0 <= i < |unknownBinaries|
      ensures EstimateAll(m, nRuns, distLOS, distSurvey, unknownBinaries, [], draws)[i] == 0.0
    {
      NoSecondaryInBoxZero(m, nRuns, distLOS, distSurvey, unknownBinaries, [], draws, i);
    }
  }

  /**
   Every draw in the 5-arcminute box of (10, 41) is within 1 degree, hence
   within 3600 arcseconds, of (10, 41).
   */
  lemma DrawNearCentre(m: Maths, sample: SkyPoint)
    requires m.Valid()
    requires Drawable(sample, CalcCoordRange(m, 10.0, 41.0, 5.0))
    ensures SeparationDist(m, sample, SkyPoint(10.0, 41.0)) < 1.0
  {
    var bound := 5.0 / 60.0;
    var cosTarget := m.cosDeg(41.0);
    assert 0.0 < cosTarget <= 1.0;
    assert -bound <= sample.ra - 10.0 <= bound;
    assert -bound <= sample.dec - 41.0 <= bound;
    var x := (sample.ra - 10.0) * m.cosDeg(sample.dec);
    MulUnitBound(sample.ra - 10.0, m.cosDeg(sample.dec), bound);
    SqLe(x, bound);
    SqLe(sample.dec - 41.0, bound);
    assert Sq(bound) == bound * bound;
    assert Sq(x) <= 1.0 / 144.0;
    assert Sq(sample.dec - 41.0) <= 1.0 / 144.0;
    assert SqSeparation(m, sample, SkyPoint(10.0, 41.0)) == Sq(x) + Sq(sample.dec - 41.0);
    assert SqSeparation(m, sample, SkyPoint(10.0, 41.0)) < 1.0;
    SqrtBelowOne(m, SqSeparation(m, sample, SkyPoint(10.0, 41.0)));
  }

  /**
   One binary at (10, 41) with a secondary at the same position, a
   5-arcminute survey radius and a 9999999-arcsecond threshold: every trial
   finds a companion, so the estimate is exactly 1, for any number of trials
   and any draws in the box.
   */
  lemma CoincidentSecondaryCertain(m: Maths, nRuns: nat, draws: seq<seq<SkyPoint>>)
    requires m.Valid() && nRuns > 0
    requires ValidDraws(m, nRuns, 5.0, [SkyPoint(10.0, 41.0)], draws)
    ensures EstimateAll(m, nRuns, 9999999.0, 5.0, [SkyPoint(10.0, 41.0)], [SkyPoint(10.0, 41.0)], draws) == [1.0]
  {
    var target := SkyPoint(10.0, 41.0);
    var box := TargetBox(m, target, 5.0);
    var selected := SelectSecondaries([target], box);
    assert selected == [target] by {
      assert target in selected;
    }
    var samples := draws[0];
    assert |samples| == nRuns;
    forall k | 0 <= k < |samples|
      ensures IsHit(m, samples[k], selected, 9999999.0)
    {
      DrawNearCentre(m, samples[k]);
      IsHitIff(m, samples[k], selected, 9999999.0);
    }
    HitsAll(m, samples, selected, 9999999.0);
    assert LOSFraction(m, samples, selected, 9999999.0) == 1.0;
    var r := EstimateAll(m, nRuns, 9999999.0, 5.0, [target], [target], draws);
    assert r[0] == TargetLOS(m, target, [target], 9999999.0, 5.0, samples);
  }
}
