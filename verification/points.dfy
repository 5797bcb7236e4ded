/**
 * The scoring formulas. Each checks its arguments first: a violated check is an
 * IllegalArgumentException.
 */
module Points {
  import opened Wrappers

  const ClosedForestTilePoints := 2
  const ClosedForestMushroomPoints := 3
  const ClosedRiverTilePoints := 1
  const ClosedRiverFishPoints := 1
  const MammothPoints := 3
  const AurochsPoints := 2
  const DeerPoints := 1
  const LogboatPoints := 2
  const RaftPoints := 1
  const FisherHutPoints := 1

  /** forClosedForest: needs more than one tile and a non-negative mushroom group count. */
  function ForClosedForest(tileCount: int, mushroomGroupCount: int): (r: Result<int, Thrown>)
    ensures r.Success? <==> tileCount > 1 && mushroomGroupCount >= 0
    ensures r.Success? ==> r.value == 2 * tileCount + 3 * mushroomGroupCount && r.value >= 4
    ensures r.Failure? ==> r.error == IllegalArgument
  {
    var _ :- CheckArgument(tileCount > 1);
    var _ :- CheckArgument(mushroomGroupCount >= 0);
    Success(tileCount * ClosedForestTilePoints + mushroomGroupCount * ClosedForestMushroomPoints)
  }

  /** forClosedRiver: needs more than one tile and a non-negative fish count. */
  function ForClosedRiver(tileCount: int, fishCount: int): (r: Result<int, Thrown>)
    ensures r.Success? <==> tileCount > 1 && fishCount >= 0
    ensures r.Success? ==> r.value == tileCount + fishCount && r.value >= 2
    ensures r.Failure? ==> r.error == IllegalArgument
  {
    var _ :- CheckArgument(tileCount > 1);
    var _ :- CheckArgument(fishCount >= 0);
    Success(tileCount * ClosedRiverTilePoints + fishCount * ClosedRiverFishPoints)
  }

  /** forMeadow: needs non-negative counts; worth nothing exactly when the meadow has none of the three animals. */
  function ForMeadow(mammothCount: int, aurochsCount: int, deerCount: int): (r: Result<int, Thrown>)
    ensures r.Success? <==> mammothCount >= 0 && aurochsCount >= 0 && deerCount >= 0
    ensures r.Success? ==> r.value == 3 * mammothCount + 2 * aurochsCount + deerCount
    ensures r.Success? ==> r.value >= 0 && (r.value == 0 <==> mammothCount == aurochsCount == deerCount == 0)
    ensures r.Failure? ==> r.error == IllegalArgument
  {
    var _ :- CheckArgument(mammothCount >= 0);
    var _ :- CheckArgument(aurochsCount >= 0);
    var _ :- CheckArgument(deerCount >= 0);
    Success(mammothCount * MammothPoints + aurochsCount * AurochsPoints + deerCount * DeerPoints)
  }

  /** forRiverSystem: one point per fish; needs a non-negative fish count. */
  function ForRiverSystem(fishCount: int): (r: Result<int, Thrown>)
    ensures r.Success? <==> fishCount >= 0
    ensures r.Success? ==> r.value == fishCount
    ensures r.Failure? ==> r.error == IllegalArgument
  {
    var _ :- CheckArgument(fishCount >= 0);
    Success(fishCount * FisherHutPoints)
  }

  /** forLogboat: two points per lake; needs at least one lake. */
  function ForLogboat(lakeCount: int): (r: Result<int, Thrown>)
    ensures r.Success? <==> lakeCount > 0
    ensures r.Success? ==> r.value == 2 * lakeCount && r.value >= 2
    ensures r.Failure? ==> r.error == IllegalArgument
  {
    var _ :- CheckArgument(lakeCount > 0);
    Success(lakeCount * LogboatPoints)
  }

  /** forRaft: one point per lake; needs at least one lake. */
  function ForRaft(lakeCount: int): (r: Result<int, Thrown>)
    ensures r.Success? <==> lakeCount > 0
    ensures r.Success? ==> r.value == lakeCount && r.value >= 1
    ensures r.Failure? ==> r.error == IllegalArgument
  {
    var _ :- CheckArgument(lakeCount > 0);
    Success(lakeCount * RaftPoints)
  }

  /** Under their checks all six formulas give non-negative points, and more of anything never gives fewer. */
  lemma PointsAreNonNegativeAndMonotone(t: int, t': int, m: int, m': int, a: int, d: int)
    requires 1 < t <= t' && 0 <= m <= m' && a >= 0 && d >= 0
    ensures ForClosedForest(t, m).value >= 0 && ForClosedForest(t, m).value <= ForClosedForest(t', m').value
    ensures ForClosedRiver(t, m).value >= 0 && ForClosedRiver(t, m).value <= ForClosedRiver(t', m').value
    ensures ForMeadow(m, a, d).value >= 0 && ForMeadow(m, a, d).value <= ForMeadow(m', a, d).value
    ensures ForRiverSystem(m).value >= 0 && ForRiverSystem(m).value <= ForRiverSystem(m').value
    ensures ForLogboat(t).value >= 0 && ForLogboat(t).value <= ForLogboat(t').value
    ensures ForRaft(t).value >= 0 && ForRaft(t).value <= ForRaft(t').value
  {
  }
}
