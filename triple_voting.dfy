/** The triple-redundancy draft (teste2majorityvoting.py): sensors come in
    groups of three, each group votes one distance, the votes are smoothed
    by a moving mean, and the level is the more intense of the levels of the
    nearest vote and of the smoothed vote. */
module TripleVoting {
  import opened BeepCommon

  /** smooth_readings: the mean of all distances when there are fewer than
      three, else the mean of the last min(5, n). */
  function Smooth(distances: seq<int>): (r: real)
    requires |distances| > 0
    ensures Min(distances) as real <= r <= Max(distances) as real
  {
    if |distances| < 3 then
      MeanBetween(distances, Min(distances), Max(distances));
      Mean(distances)
    else
      var window := if 5 < |distances| then 5 else |distances|;
      var tail := distances[|distances| - window..];
      assert forall x :: x in tail ==> x in distances;
      MeanBetween(tail, Min(distances), Max(distances));
      Mean(tail)
  }

  /** One vote per consecutive triple of sensors. */
  function Votes(sensors: seq<int>): (r: seq<int>)
    requires |sensors| % 3 == 0
  {
    seq(|sensors| / 3, k requires 0 <= k < |sensors| / 3 => MostCommon(sensors[3 * k..3 * k + 3]))
  }

  /** The grouping loop of get_beep_level_with_fault_tolerance. */
  method VoteGroups(sensors: seq<int>) returns (distances: seq<int>)
    requires |sensors| % 3 == 0
    ensures distances == Votes(sensors)
    ensures |distances| == |sensors| / 3
  {
    distances := [];
    var k := 0;
    while k < |sensors| / 3
      invariant 0 <= k <= |sensors| / 3
      invariant |distances| == k
      invariant forall j :: 0 <= j < k ==> distances[j] == MostCommon(sensors[3 * j..3 * j + 3])
    {
      var group := sensors[3 * k..3 * k + 3];
      var distance := MostCommon(group);
      distances := distances + [distance];
      k := k + 1;
    }
  }

  /** Each vote is a reading of its own triple, and a triple with two
      agreeing sensors votes their reading. */
  lemma VotesAreMajorities(sensors: seq<int>, k: int)
    requires |sensors| % 3 == 0 && 0 <= k < |sensors| / 3
    ensures |Votes(sensors)| == |sensors| / 3
    ensures Votes(sensors)[k] in sensors[3 * k..3 * k + 3]
    ensures sensors[3 * k] == sensors[3 * k + 1] || sensors[3 * k] == sensors[3 * k + 2] ==>
              Votes(sensors)[k] == sensors[3 * k]
    ensures sensors[3 * k + 1] == sensors[3 * k + 2] ==> Votes(sensors)[k] == sensors[3 * k + 1]
  {
    var g := sensors[3 * k..3 * k + 3];
    assert g == [sensors[3 * k], sensors[3 * k + 1], sensors[3 * k + 2]];
    VoteOfThree(sensors[3 * k], sensors[3 * k + 1], sensors[3 * k + 2]);
  }

  /** Software redundancy: the more intense of the levels of the nearest
      vote and of the smoothed votes.  The smoothed value is never below
      the minimum, so the result is always the level of the minimum. */
  function MinOrSmoothedLevel(distances: seq<int>, levels: seq<int>): (r: nat)
    requires |distances| > 0
    ensures r == FirstAtLeast(Min(distances) as real, levels)
    ensures r <= |levels|
  {
    var method1 := FirstAtLeast(Min(distances) as real, levels);
    var method2 := FirstAtLeast(Smooth(distances), levels);
    FirstAtLeastMonotone(Min(distances) as real, Smooth(distances), levels);
    if method1 <= method2 then method1 else method2
  }

  /** The validation of get_beep_level_with_fault_tolerance, short of its
      empty-levels case. */
  predicate Accepted(sensors: seq<Reading>, levels: seq<Reading>): (ok: bool)
    ensures ok ==> AllValid(sensors) && |sensors| % 3 == 0 &&
                   |Votes(Values(sensors))| >= 1 && forall x :: x in Values(sensors) ==> x >= 0
  {
    if |sensors| > 0 && |sensors| % 3 == 0 && AllValid(sensors) && AllValid(levels) then
      ValidValues(sensors);
      true
    else
      false
  }

  /** get_beep_level_with_fault_tolerance with its module-level store
      `previous_distances`. */
  class Monitor {
    var previousDistances: seq<int>

    constructor()
      ensures previousDistances == []
    {
      previousDistances := [];
    }

    method GetBeepLevel(sensors: seq<Reading>, levels: seq<Reading>) returns (r: int)
      modifies this
      ensures !Accepted(sensors, levels) ==> r == -1 && previousDistances == old(previousDistances)
      ensures Accepted(sensors, levels) && |levels| == 0 ==> r == 0 && previousDistances == old(previousDistances)
      ensures Accepted(sensors, levels) && |levels| > 0 ==>
                previousDistances == Votes(Values(sensors)) &&
                r == FirstAtLeast(Min(Votes(Values(sensors))) as real, Values(levels)) &&
                0 <= r <= |levels|
    {
      if |sensors| == 0 || |sensors| % 3 != 0 {
        return -1;
      }
      if !AllValid(sensors) {
        return -1;
      }
      if !AllValid(levels) {
        return -1;
      }
      if |levels| == 0 {
        return 0;
      }
      var distances := VoteGroups(Values(sensors));
      var smoothed := Smooth(distances);
      previousDistances := distances;
      var lv := Values(levels);
      var method1 := FirstAtLeast(Min(distances) as real, lv);
      var method2 := FirstAtLeast(smoothed, lv);
      FirstAtLeastMonotone(Min(distances) as real, smoothed, lv);
      r := if method1 <= method2 then method1 else method2;
    }
  }

  /** Nine sensors whose first triple has its outer sensors agreeing and
      whose other triples have their first two agreeing vote those
      readings. */
  lemma VotesOfNine(s: seq<int>)
    requires |s| == 9 && s[0] == s[2] && s[3] == s[4] && s[6] == s[7]
    ensures Votes(s) == [s[0], s[3], s[6]]
  {
    var v := Votes(s);
    VotesAreMajorities(s, 0);
    assert v[0] == s[0];
    VotesAreMajorities(s, 1);
    assert v[1] == s[3];
    VotesAreMajorities(s, 2);
    assert v[2] == s[6];
    assert v == [v[0], v[1], v[2]];
  }

  /** Test case TC3 of the FR4 table of teste2majorityvoting.py: the votes
      are 1, 7 and 13, and the level is 0, as the table expects. */
  lemma AgreeingTriplesLevel()
    ensures MinOrSmoothedLevel([1, 7, 13], [5, 10, 20, 40, 70]) == 0
  {
    assert Min([1, 7, 13]) == 1;
  }

  lemma AgreeingTriplesExample()
    ensures MinOrSmoothedLevel(Votes([1, 1, 1, 7, 7, 7, 13, 13, 13]), [5, 10, 20, 40, 70]) == 0
  {
    VotesOfNine([1, 1, 1, 7, 7, 7, 13, 13, 13]);
    AgreeingTriplesLevel();
  }

  /** Test case TC10: the votes are 50, 30 and 40; the nearest, 30, first
      reaches the level 40 at index 3, where the table expects 2. */
  lemma NearestVoteLevel()
    ensures MinOrSmoothedLevel([50, 30, 40], [5, 10, 20, 40, 70]) == 3
  {
    assert Min([50, 30, 40]) == 30;
    FirstAtLeastUnique(30.0, [5, 10, 20, 40, 70], 3);
  }

  lemma NearestVoteExample()
    ensures MinOrSmoothedLevel(Votes([50, 50, 50, 30, 30, 30, 40, 40, 40]), [5, 10, 20, 40, 70]) == 3
  {
    VotesOfNine([50, 50, 50, 30, 30, 30, 40, 40, 40]);
    NearestVoteLevel();
  }

  /** Test case TC1: the first triple votes 100 over 60; the nearest vote,
      7, gives index 1, where the table expects 0. */
  lemma OutvotedSensorLevel()
    ensures MinOrSmoothedLevel([100, 30, 7], [5, 10, 20, 40, 70]) == 1
  {
    assert Min([100, 30, 7]) == 7;
    FirstAtLeastUnique(7.0, [5, 10, 20, 40, 70], 1);
  }

  lemma OutvotedSensorExample()
    ensures MinOrSmoothedLevel(Votes([100, 60, 100, 30, 30, 30, 7, 7, 7]), [5, 10, 20, 40, 70]) == 1
  {
    VotesOfNine([100, 60, 100, 30, 30, 30, 7, 7, 7]);
    OutvotedSensorLevel();
  }
}
