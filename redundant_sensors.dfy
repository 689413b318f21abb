/** The primary/backup sensor draft (qcsfr4.py).  Its first version looks up
    the level of the nearest sensor; its fault-tolerant version validates
    two parallel sensor lists, replaces failed primaries by their backups,
    falls back to the distances of an earlier call, and takes the more
    intense of two levels: that of the minimum and that of the median. */
module RedundantSensors {
  import opened BeepCommon

  /** get_beep_level without fault tolerance (also
      get_beep_level_without_fault_tolerance of teste2majorityvoting.py):
      -1 for fewer than two sensors, else the first level reaching the
      nearest distance, or one past the last level. */
  method BeepLevel(distances: seq<int>, levels: seq<int>) returns (r: int)
    ensures |distances| < 2 ==> r == -1
    ensures |distances| >= 2 ==> r == FirstAtLeast(Min(distances) as real, levels)
    ensures |distances| >= 2 ==> 0 <= r <= |levels|
  {
    if |distances| < 2 {
      return -1;
    }
    var minDistance := Min(distances);
    var i := 0;
    while i < |levels|
      invariant 0 <= i <= |levels|
      invariant forall k :: 0 <= k < i ==> levels[k] < minDistance
    {
      if minDistance <= levels[i] {
        FirstAtLeastUnique(minDistance as real, levels, i);
        return i;
      }
      i := i + 1;
    }
    FirstAtLeastUnique(minDistance as real, levels, |levels|);
    r := |levels|;
  }

  /** The script's calls at lines 36-39 of qcsfr4.py, evaluated by the code
      rather than by the comments beside them. */
  lemma BeepLevelExamples()
    ensures FirstAtLeast(Min([100, 100]) as real, [5, 10, 20, 40, 70]) == 5
    ensures FirstAtLeast(Min([30, 100]) as real, [5, 10, 20, 40, 70]) == 3
    ensures FirstAtLeast(Min([1, 7, 13, 25, 45, 80]) as real, [5, 10, 20, 40, 70]) == 0
    ensures FirstAtLeast(Min([2, 4, 5, 5]) as real, [1]) == 1
  {
    assert Min([100, 100]) == 100;
    FirstAtLeastUnique(100.0, [5, 10, 20, 40, 70], 5);
    assert Min([30, 100]) == 30;
    FirstAtLeastUnique(30.0, [5, 10, 20, 40, 70], 3);
    assert Min([1, 7, 13, 25, 45, 80]) == 1;
    assert Min([2, 4, 5, 5]) == 2;
  }

  /** Hardware redundancy: each primary reading, or its backup where the
      primary is negative. */
  function Validated(primary: seq<int>, backup: seq<int>): (r: seq<int>)
    requires |primary| == |backup|
    ensures |r| == |primary|
    ensures forall i :: 0 <= i < |r| ==> (primary[i] >= 0 ==> r[i] == primary[i]) && (primary[i] < 0 ==> r[i] == backup[i])
    ensures forall i :: 0 <= i < |r| ==> (primary[i] >= 0 || backup[i] >= 0 ==> r[i] >= 0)
    ensures (forall x :: x in primary ==> x >= 0) ==> r == primary
  {
    assert forall i :: 0 <= i < |primary| ==> primary[i] in primary;
    seq(|primary|, i requires 0 <= i < |primary| => if primary[i] >= 0 then primary[i] else backup[i])
  }

  /** Time redundancy: the readings that are not negative. */
  function NonNegative(s: seq<int>): (r: seq<int>)
    ensures |r| <= |s|
    ensures forall x :: x in r <==> x in s && x >= 0
    ensures forall x :: multiset(r)[x] == if x >= 0 then multiset(s)[x] else 0
  {
    if |s| == 0 then []
    else
      assert forall x :: x in s ==> x == s[0] || x in s[1..];
      assert s == [s[0]] + s[1..];
      if s[0] >= 0 then [s[0]] + NonNegative(s[1..]) else NonNegative(s[1..])
  }

  lemma {:induction false} NonNegativeKeepsAll(s: seq<int>)
    requires forall x :: x in s ==> x >= 0
    ensures NonNegative(s) == s
  {
    if |s| > 0 {
      assert s[0] in s;
      assert forall x :: x in s[1..] ==> x in s;
      NonNegativeKeepsAll(s[1..]);
      assert s == [s[0]] + s[1..];
    }
  }

  /** The distances a decision is made from: the valid readings when there
      are at least two, else the stored ones of an earlier call; None when
      there is nothing to fall back on. */
  function Recover(valid: seq<int>, previous: seq<int>): (r: Option<seq<int>>)
    ensures r.None? <==> |valid| < 2 && previous == []
    ensures r.Some? ==> |r.value| > 0
    ensures r.Some? ==> r.value == (if |valid| >= 2 then valid else previous)
  {
    if |valid| < 2 then
      if previous != [] then Some(previous) else None
    else Some(valid)
  }

  /** Software redundancy: the more intense of the levels of the minimum
      and of the median.  The median is never below the minimum, so the
      result is always the level of the minimum. */
  function MinOrMedianLevel(distances: seq<int>, levels: seq<int>): (r: nat)
    requires |distances| > 0
    ensures r == FirstAtLeast(Min(distances) as real, levels)
    ensures r <= |levels|
  {
    var method1 := FirstAtLeast(Min(distances) as real, levels);
    var method2 := FirstAtLeast(Median(distances), levels);
    MedianBetween(distances, Min(distances), Max(distances));
    FirstAtLeastMonotone(Min(distances) as real, Median(distances), levels);
    if method1 <= method2 then method1 else method2
  }

  /** The validation of the fault-tolerant get_beep_level. */
  predicate Accepted(primary: seq<Reading>, backup: seq<Reading>, levels: seq<Reading>): (ok: bool)
    ensures ok <==> |primary| >= 2 && |primary| == |backup| && AllValid(primary) && AllValid(backup) && AllValid(levels)
  {
    AcceptedParts(primary, backup);
    |primary| >= 2 && |primary| == |backup| && AllValid(primary + backup) && AllValid(levels)
  }

  /** The check on the joined list is the check on each list. */
  lemma AcceptedParts(primary: seq<Reading>, backup: seq<Reading>)
    ensures AllValid(primary + backup) <==> AllValid(primary) && AllValid(backup)
  {
    var joined := primary + backup;
    assert forall i :: 0 <= i < |primary| ==> joined[i] == primary[i];
    assert forall i :: 0 <= i < |backup| ==> joined[|primary| + i] == backup[i];
    if AllValid(primary) && AllValid(backup) {
      forall i | 0 <= i < |joined|
        ensures IsValid(joined[i])
      {
        if i >= |primary| {
          assert joined[i] == backup[i - |primary|];
        }
      }
    }
  }

  /** The fault-tolerant get_beep_level with its module-level store
      `previous_distances`. */
  class Monitor {
    var previousDistances: seq<int>

    /** Every stored list was a decision's input: at least two readings,
        none negative, or nothing stored yet.  No result depends on it,
        because the fallback that reads the store is never taken; it records
        what the fallback would find there. */
    ghost predicate Valid()
      reads this
    {
      (previousDistances == [] || |previousDistances| >= 2) &&
      forall x :: x in previousDistances ==> x >= 0
    }

    constructor()
      ensures previousDistances == [] && Valid()
    {
      previousDistances := [];
    }

    method GetBeepLevel(primary: seq<Reading>, backup: seq<Reading>, levels: seq<Reading>) returns (r: int)
      modifies this
      ensures !Accepted(primary, backup, levels) ==> r == -1 && previousDistances == old(previousDistances)
      ensures Accepted(primary, backup, levels) && |levels| == 0 ==> r == 0 && previousDistances == old(previousDistances)
      ensures Accepted(primary, backup, levels) && |levels| > 0 ==>
                AllValid(primary) && AllValid(levels) &&
                previousDistances == Values(primary) &&
                r == FirstAtLeast(Min(Values(primary)) as real, Values(levels)) &&
                0 <= r <= |levels|
      ensures old(Valid()) ==> Valid()
    {
      if |primary| < 2 {
        return -1;
      }
      if |primary| != |backup| {
        return -1;
      }
      if !AllValid(primary + backup) {
        return -1;
      }
      if !AllValid(levels) {
        return -1;
      }
      if |levels| == 0 {
        return 0;
      }
      AcceptedParts(primary, backup);
      var p := Values(primary);
      var b := Values(backup);
      var lv := Values(levels);
      var validated := Validated(p, b);
      var valid := NonNegative(validated);
      ValidValues(primary);
      NonNegativeKeepsAll(p);
      var recovered := Recover(valid, previousDistances);
      var distances := recovered.value;
      previousDistances := distances;
      r := MinOrMedianLevel(distances, lv);
    }
  }

  /** The data-redundancy scenario at lines 114-116 of qcsfr4.py: with every
      reading at -1, validation rejects the call before anything is stored,
      so a later rejected call cannot reuse the readings of an accepted one. */
  lemma NegativeReadingsRejected(primary: seq<Reading>, backup: seq<Reading>, levels: seq<Reading>)
    requires |primary| > 0 && primary[0] == Num(-1)
    ensures !Accepted(primary, backup, levels)
  {
    assert (primary + backup)[0] == primary[0];
  }
}
