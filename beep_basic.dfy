/** The first parking-sensor draft (teste.py): the beep level is the first
    level that reaches the nearest sensor's distance, or the last level when
    none does; fewer than two sensors is an error (-1). */
module BeepBasic {
  import opened BeepCommon

  /** calcular_nivel_beep: the index of the first level at or beyond `d`;
      when no level reaches `d`, the last index (-1 for no levels at all). */
  function LevelIndex(d: int, levels: seq<int>): (r: int)
    ensures -1 <= r < |levels|
    ensures (0 <= r && d <= levels[r] && forall i :: 0 <= i < r ==> levels[i] < d) ||
            (r == |levels| - 1 && forall i :: 0 <= i < |levels| ==> levels[i] < d)
  {
    var f := FirstAtLeast(d as real, levels);
    if f < |levels| then f else |levels| - 1
  }

  /** The loop of calcular_nivel_beep, which returns from inside `enumerate`. */
  method FindLevel(d: int, levels: seq<int>) returns (r: int)
    ensures r == LevelIndex(d, levels)
  {
    var i := 0;
    while i < |levels|
      invariant 0 <= i <= |levels|
      invariant forall k :: 0 <= k < i ==> levels[k] < d
    {
      if d <= levels[i] {
        FirstAtLeastUnique(d as real, levels, i);
        return i;
      }
      i := i + 1;
    }
    FirstAtLeastUnique(d as real, levels, |levels|);
    r := |levels| - 1;
  }

  /** A nearer object never gets a later (less intense) level. */
  lemma LevelIndexMonotone(d: int, e: int, levels: seq<int>)
    requires d <= e
    ensures LevelIndex(d, levels) <= LevelIndex(e, levels)
  {
    FirstAtLeastMonotone(d as real, e as real, levels);
  }

  /** obter_distancia_minima: `min`, or -1 when the list is empty (the
      ValueError `min` raises is caught). */
  function MinDistance(distances: seq<int>): (r: int)
    ensures |distances| == 0 ==> r == -1
    ensures |distances| > 0 ==> r in distances && forall x :: x in distances ==> r <= x
  {
    if |distances| == 0 then -1 else Min(distances)
  }

  /** fr4: fewer than two sensors, or a minimum equal to the -1 sentinel,
      gives -1; otherwise the level of the nearest sensor. */
  function Fr4(distances: seq<int>, levels: seq<int>): (r: int)
    ensures |distances| < 2 ==> r == -1
    ensures |distances| >= 2 && Min(distances) == -1 ==> r == -1
    ensures |distances| >= 2 && Min(distances) != -1 ==> r == LevelIndex(Min(distances), levels)
    ensures -1 <= r < |levels|
  {
    if |distances| < 2 then -1
    else
      var m := MinDistance(distances);
      if m == -1 then -1 else LevelIndex(m, levels)
  }

  /** When some level reaches the nearest sensor, fr4 picks one that does,
      and every more intense level lies below every sensor's distance. */
  lemma Fr4NearestSensor(distances: seq<int>, levels: seq<int>)
    requires |distances| >= 2 && Min(distances) != -1
    requires exists i :: 0 <= i < |levels| && Min(distances) <= levels[i]
    ensures 0 <= Fr4(distances, levels) < |levels|
    ensures Min(distances) <= levels[Fr4(distances, levels)]
    ensures forall i, x :: 0 <= i < Fr4(distances, levels) && x in distances ==> levels[i] < x
  {
  }

  /** The five cases of test_fr4.  The third returns 2: 150 reaches the
      level 150 at index 2, although the test's comment expects 3. */
  lemma Fr4Examples()
    ensures Fr4([30, 100], [5, 10, 20, 40, 70]) == 3
    ensures Fr4([10, 50, 5], [5, 15, 30, 50, 100]) == 0
    ensures Fr4([200, 150], [50, 100, 150, 200]) == 2
    ensures Fr4([15], [5, 10, 20]) == -1
    ensures Fr4([], [5, 10, 20]) == -1
  {
    assert Min([30, 100]) == 30;
    FirstAtLeastUnique(30.0, [5, 10, 20, 40, 70], 3);
    assert Min([10, 50, 5]) == 5;
    assert Min([200, 150]) == 150;
    FirstAtLeastUnique(150.0, [50, 100, 150, 200], 2);
  }
}
