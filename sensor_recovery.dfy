/** The recovery-mechanism draft (teste3.py): a mod-256 checksum over the
    readings, a bounded retry of a failing sensor, a backup cell holding the
    last valid distance, majority voting over triples with a median
    fallback, the validation that opens get_beep_level_with_fault_tolerance,
    and its final level lookup, which walks the levels from the far end. */
module SensorRecovery {
  import opened BeepCommon

  // ---------------------------------------------------------------------------
  // Information redundancy: checksum

  /** checksum: the sum of the readings modulo 256.  Python's `%` with a
      positive modulus never yields a negative value, as Dafny's does not. */
  function Checksum(data: seq<int>): (c: int)
    ensures 0 <= c < 256
    ensures (Sum(data) - c) % 256 == 0
  {
    Sum(data) % 256
  }

  /** is_valid_data: the last entry is the checksum of the others.  Python
      raises IndexError on an empty list, hence the precondition. */
  predicate IsValidData(sensors: seq<int>): (ok: bool)
    requires |sensors| > 0
    ensures ok <==> 0 <= sensors[|sensors| - 1] < 256 &&
                    (Sum(sensors[..|sensors| - 1]) - sensors[|sensors| - 1]) % 256 == 0
  {
    Checksum(sensors[..|sensors| - 1]) == sensors[|sensors| - 1]
  }

  /** Appending a value makes the data valid exactly when the value is the
      checksum of the data. */
  lemma ChecksumRoundTrip(data: seq<int>, c: int)
    ensures IsValidData(data + [c]) <==> c == Checksum(data)
  {
    assert (data + [c])[..|data|] == data;
  }

  lemma {:induction false} SumUpdate(s: seq<int>, i: int, v: int)
    requires 0 <= i < |s|
    ensures Sum(s[i := v]) == Sum(s) - s[i] + v
  {
    if i > 0 {
      assert s[i := v][1..] == s[1..][i - 1 := v];
      SumUpdate(s[1..], i - 1, v);
    } else {
      assert s[i := v][1..] == s[1..];
    }
  }

  /** A reading changed after its checksum was taken goes unnoticed exactly
      when the change is a multiple of 256. */
  lemma ChecksumDetectsChange(data: seq<int>, i: int, v: int)
    requires 0 <= i < |data|
    ensures IsValidData(data[i := v] + [Checksum(data)]) <==> (v - data[i]) % 256 == 0
  {
    ChecksumRoundTrip(data[i := v], Checksum(data));
    SumUpdate(data, i, v);
    var t := Sum(data);
    assert Sum(data[i := v]) == t + (v - data[i]);
    SameResidue(t, v - data[i]);
  }

  lemma SameResidue(t: int, e: int)
    ensures (t + e) % 256 == t % 256 <==> e % 256 == 0
  {
    var q := t / 256;
    var r := t % 256;
    assert t == 256 * q + r;
    assert (t + e) % 256 == (r + e) % 256 by {
      assert t + e == 256 * q + (r + e);
    }
  }

  /** test_checksum_verification of faulttolerancetestcase.py. */
  lemma ChecksumExample()
    ensures Checksum([10, 20, 30, 40]) == 100
    ensures IsValidData([10, 20, 30, 40] + [100])
    ensures !IsValidData([10, 20, 30, 40] + [101])
  {
    ChecksumRoundTrip([10, 20, 30, 40], 100);
    ChecksumRoundTrip([10, 20, 30, 40], 101);
  }

  // ---------------------------------------------------------------------------
  // Time redundancy: retry

  /** A distance the recovery mechanisms accept: between 0 and 100. */
  predicate InRange(x: real)
  {
    0.0 <= x <= 100.0
  }

  /** safe_reading: asks the sensor up to `retries` times and returns the
      first reading between 0 and 100, or -1.  `sensor(k)` is the reading
      the sensor gives on its k-th call; `calls` is how often it was asked.
      The source's default of three retries is left to the caller. */
  method SafeReading(sensor: nat -> int, retries: int) returns (r: int, calls: nat)
    ensures calls <= if retries > 0 then retries else 0
    ensures r == -1 ==>
              calls == (if retries > 0 then retries else 0) &&
              forall k :: 0 <= k < calls ==> !InRange(sensor(k) as real)
    ensures r != -1 ==>
              0 < calls && r == sensor(calls - 1) && InRange(r as real) &&
              forall k :: 0 <= k < calls - 1 ==> !InRange(sensor(k) as real)
  {
    calls := 0;
    while calls < retries
      invariant calls <= if retries > 0 then retries else 0
      invariant forall k :: 0 <= k < calls ==> !InRange(sensor(k) as real)
    {
      var reading := sensor(calls);
      calls := calls + 1;
      if 0 <= reading <= 100 {
        return reading, calls;
      }
    }
    r := -1;
  }

  // ---------------------------------------------------------------------------
  // Backward recovery: the last valid distance

  /** The distance get_distance_with_backup returns, given the stored one. */
  function Backup(last: real, current: real): (d: real)
    ensures InRange(current) ==> d == current
    ensures !InRange(current) ==> d == last
    ensures InRange(last) ==> InRange(d)
  {
    if InRange(current) then current else last
  }

  /** The module-level `last_valid_distance` and get_distance_with_backup,
      which reads and reassigns it. */
  class BackupCell {
    var lastValidDistance: real

    ghost predicate Valid()
      reads this
    {
      InRange(lastValidDistance)
    }

    /** The safe initial value. */
    constructor()
      ensures lastValidDistance == 50.0 && Valid()
    {
      lastValidDistance := 50.0;
    }

    method GetDistance(current: real) returns (d: real)
      modifies this
      ensures InRange(current) ==> d == current && lastValidDistance == current
      ensures !InRange(current) ==> d == old(lastValidDistance) && lastValidDistance == old(lastValidDistance)
      ensures d == Backup(old(lastValidDistance), current)
      ensures old(Valid()) ==> Valid() && InRange(d)
    {
      if 0.0 <= current <= 100.0 {
        lastValidDistance := current;
        return current;
      }
      d := lastValidDistance;
    }
  }

  /** test_backup_distance of faulttolerancetestcase.py: after 40, the
      faulty reading -5 is answered with 40. */
  method BackupExample() returns (first: real, second: real)
    ensures first == 40.0 && second == 40.0
  {
    var cell := new BackupCell();
    first := cell.GetDistance(40.0);
    second := cell.GetDistance(-5.0);
  }

  // ---------------------------------------------------------------------------
  // Majority voting

  /** Some reading occurs at least twice. */
  ghost predicate HasRepeat(distances: seq<int>)
  {
    exists x :: x in distances && Count(distances, x) >= 2
  }

  /** `x` is a reading of largest count. */
  ghost predicate IsMode(distances: seq<int>, x: int)
  {
    x in distances && forall y :: y in distances ==> Count(distances, y) <= Count(distances, x)
  }

  /** majority_voting: a most frequent reading when it occurs at least twice,
      else the median of the readings.  Python raises on an empty list. */
  function MajorityVote(distances: seq<int>): (r: real)
    requires |distances| > 0
    ensures HasRepeat(distances) ==> exists x :: IsMode(distances, x) && 2 <= Count(distances, x) && r == x as real
    ensures !HasRepeat(distances) ==> r == Median(distances)
    ensures Min(distances) as real <= r <= Max(distances) as real
  {
    var m := MostCommon(distances);
    MedianBetween(distances, Min(distances), Max(distances));
    assert IsMode(distances, m);
    if Count(distances, m) >= 2 then m as real else Median(distances)
  }

  /** The middle one of three values. */
  function Middle(a: int, b: int, c: int): int
  {
    if (a <= b <= c) || (c <= b <= a) then b
    else if (b <= a <= c) || (c <= a <= b) then a
    else c
  }

  lemma SortOfTwo(b: int, c: int)
    ensures Sort([b, c]) == if b <= c then [b, c] else [c, b]
  {
    assert [b, c][1..] == [c] && [c][1..] == [];
    assert Sort([c]) == [c];
  }

  lemma InsertIntoTwo(a: int, p: int, q: int)
    requires p <= q
    ensures Insert(a, [p, q]) == if a <= p then [a, p, q] else if a <= q then [p, a, q] else [p, q, a]
  {
    assert [p, q][1..] == [q] && [q][1..] == [];
    assert Insert(a, [q]) == if a <= q then [a, q] else [q, a];
  }

  lemma SortOfThree(a: int, b: int, c: int)
    ensures Sort([a, b, c])[1] == Middle(a, b, c)
  {
    assert [a, b, c][1..] == [b, c];
    assert Sort([a, b, c]) == Insert(a, Sort([b, c]));
    SortOfTwo(b, c);
    var p := if b <= c then b else c;
    var q := if b <= c then c else b;
    InsertIntoTwo(a, p, q);
  }

  lemma MedianOfThree(a: int, b: int, c: int)
    ensures Median([a, b, c]) == Middle(a, b, c) as real
  {
    MedianOfOdd([a, b, c]);
    SortOfThree(a, b, c);
  }

  /** Of three readings, two that agree win; three different readings give
      the middle one. */
  lemma MajorityOfThree(a: int, b: int, c: int)
    ensures a == b || a == c ==> MajorityVote([a, b, c]) == a as real
    ensures b == c ==> MajorityVote([a, b, c]) == b as real
    ensures a != b && a != c && b != c ==> MajorityVote([a, b, c]) == Middle(a, b, c) as real
  {
    var g := [a, b, c];
    VoteOfThree(a, b, c);
    assert multiset(g) == multiset{a, b, c};
    if a != b && a != c && b != c {
      assert Count(g, a) == 1;
      MedianOfThree(a, b, c);
    } else if a == b || a == c {
      assert Count(g, a) >= 2;
    } else {
      assert Count(g, b) >= 2;
    }
  }

  /** test_majority_voting of faulttolerancetestcase.py. */
  lemma MajorityVoteExamples()
    ensures MajorityVote([10, 10, 20]) == 10.0
    ensures MajorityVote([30, 20, 20]) == 20.0
    ensures MajorityVote([30, 30, 20]) == 30.0
  {
    MajorityOfThree(10, 10, 20);
    MajorityOfThree(30, 20, 20);
    MajorityOfThree(30, 30, 20);
  }

  // ---------------------------------------------------------------------------
  // get_beep_level_with_fault_tolerance: validation, votes, lookup

  /** The opening of get_beep_level_with_fault_tolerance: the readings to go
      on with, or None where it returns -1.  Its checksum test appends the
      checksum of the readings themselves, so it never rejects anything. */
  function Screen(sensors: seq<Reading>, levels: seq<Reading>): (r: Option<seq<int>>)
    ensures r.Some? <==>
              |sensors| > 0 && |sensors| % 3 == 0 && AllValid(sensors) &&
              |levels| > 0 && AllValid(levels)
    ensures r.Some? ==> r.value == Values(sensors) && forall x :: x in r.value ==> x >= 0
  {
    if |sensors| % 3 != 0 then None
    else if !AllValid(sensors) then None
    else if !AllValid(levels) then None
    else if |levels| == 0 || |sensors| == 0 then None
    else
      var s := Values(sensors);
      ValidValues(sensors);
      ChecksumRoundTrip(s, Checksum(s));
      if !IsValidData(s + [Checksum(s)]) then None else Some(s)
  }

  /** The rejected calls of the FR4 table of teste3.py: TC1, TC8, TC9, TC10,
      and TC11, which TC13 repeats. */
  lemma ScreenRejects()
    ensures Screen([], []) == None
    ensures Screen([Num(1), Num(1), NonNumeric, Num(2), Num(2), Num(2)], [Num(5), Num(10), Num(20)]) == None
    ensures Screen([Num(1), Num(1), Num(1), Num(2), Num(2), Num(2), Num(3), Num(3), Num(3)], [NonNumeric, Num(10)]) == None
    ensures Screen([Num(2), Num(2), Num(2), Num(4), Num(4), Num(4), Num(5), Num(5), Num(5)], []) == None
    ensures Screen([Num(-1), Num(-1), Num(-1), Num(-1), Num(-1), Num(-1), Num(-1), Num(-1), Num(-1)],
                   [Num(5), Num(10), Num(20), Num(40), Num(70)]) == None
  {
    var s1 := [Num(1), Num(1), NonNumeric, Num(2), Num(2), Num(2)];
    assert !IsValid(s1[2]);
    var s2 := [Num(-1), Num(-1), Num(-1), Num(-1), Num(-1), Num(-1), Num(-1), Num(-1), Num(-1)];
    assert !IsValid(s2[0]);
    var l1 := [NonNumeric, Num(10)];
    assert !IsValid(l1[0]);
  }

  /** The out-of-range call of test_get_beep_level_with_fault_tolerance:
      the readings of 300 pass, but those of -10 are rejected. */
  lemma ScreenRejectsOutOfRange()
    ensures Screen([Num(300), Num(300), Num(300), Num(-10), Num(-10), Num(-10), Num(10), Num(10), Num(10)],
                   [Num(5), Num(10), Num(20), Num(40), Num(70)]) == None
  {
    var s := [Num(300), Num(300), Num(300), Num(-10), Num(-10), Num(-10), Num(10), Num(10), Num(10)];
    assert !IsValid(s[3]);
  }

  /** One majority vote per consecutive triple of readings. */
  function GroupVotes(sensors: seq<int>): (r: seq<real>)
    requires |sensors| % 3 == 0
    ensures |r| == |sensors| / 3
    ensures forall k :: 0 <= k < |r| ==>
              Min(sensors[3 * k..3 * k + 3]) as real <= r[k] <= Max(sensors[3 * k..3 * k + 3]) as real
  {
    seq(|sensors| / 3, k requires 0 <= k < |sensors| / 3 => MajorityVote(sensors[3 * k..3 * k + 3]))
  }

  lemma GroupVotesAt(sensors: seq<int>, k: int)
    requires |sensors| % 3 == 0 && 0 <= k < |sensors| / 3
    ensures |GroupVotes(sensors)| == |sensors| / 3
    ensures GroupVotes(sensors)[k] == MajorityVote(sensors[3 * k..3 * k + 3])
  {
  }

  /** The distances get_distance_with_backup hands out for successive votes,
      starting from the stored distance `last`. */
  function BackedUp(votes: seq<real>, last: real): (r: seq<real>)
    ensures |r| == |votes|
    ensures forall k :: 0 <= k < |r| && InRange(votes[k]) ==> r[k] == votes[k]
    ensures forall k :: 0 < k < |r| && !InRange(votes[k]) ==> r[k] == r[k - 1]
    ensures |r| > 0 && !InRange(votes[0]) ==> r[0] == last
    ensures InRange(last) ==> forall k :: 0 <= k < |r| ==> InRange(r[k])
  {
    if |votes| == 0 then []
    else
      var p := BackedUp(votes[..|votes| - 1], last);
      p + [Backup(if |p| == 0 then last else p[|p| - 1], votes[|votes| - 1])]
  }

  /** A further vote extends the distances by its own backed-up distance. */
  lemma BackedUpAppend(votes: seq<real>, last: real, i: int)
    requires 0 <= i < |votes|
    ensures BackedUp(votes[..i + 1], last) ==
              var p := BackedUp(votes[..i], last);
              p + [Backup(if |p| == 0 then last else p[|p| - 1], votes[i])]
  {
    assert votes[..i + 1][..i] == votes[..i];
  }

  /** The voting loop of get_beep_level_with_fault_tolerance, short of its
      Kalman filters: each triple's vote passes through the backup cell. */
  method SafeDistances(cell: BackupCell, sensors: seq<int>) returns (distances: seq<real>)
    requires |sensors| % 3 == 0
    modifies cell
    ensures distances == BackedUp(GroupVotes(sensors), old(cell.lastValidDistance))
    ensures cell.lastValidDistance == if distances == [] then old(cell.lastValidDistance) else distances[|distances| - 1]
  {
    ghost var votes := GroupVotes(sensors);
    ghost var last := cell.lastValidDistance;
    distances := [];
    var i := 0;
    while i < |sensors| / 3
      invariant 0 <= i <= |sensors| / 3
      invariant distances == BackedUp(votes[..i], last)
      invariant cell.lastValidDistance == if i == 0 then last else distances[i - 1]
    {
      var group := sensors[3 * i..3 * i + 3];
      var validDistance := MajorityVote(group);
      var safeDistance := cell.GetDistance(validDistance);
      GroupVotesAt(sensors, i);
      BackedUpAppend(votes, last, i);
      distances := distances + [safeDistance];
      i := i + 1;
    }
    assert votes[..i] == votes;
  }

  /** `next((i for i, level in reversed(list(enumerate(levels))) if level <=
      min_distance), 0)`: the last level not above `d`, or 0 when every
      level is above it. */
  function LastAtMost(d: real, levels: seq<int>): (r: nat)
    ensures (r < |levels| && levels[r] as real <= d) ||
            (r == 0 && forall i :: 0 <= i < |levels| ==> d < levels[i] as real)
    ensures forall i :: r < i < |levels| ==> d < levels[i] as real
    ensures |levels| > 0 ==> r < |levels|
  {
    if |levels| == 0 then 0
    else if levels[|levels| - 1] as real <= d then |levels| - 1
    else LastAtMost(d, levels[..|levels| - 1])
  }

  /** A farther object never gets a lower level index. */
  lemma LastAtMostMonotone(d: real, e: real, levels: seq<int>)
    requires d <= e
    ensures LastAtMost(d, levels) <= LastAtMost(e, levels)
  {
    var r := LastAtMost(d, levels);
    if r < |levels| && levels[r] as real <= d {
      assert levels[r] as real <= e;
    }
  }

  /** The result of the lookup is the only index with its properties. */
  lemma LastAtMostUnique(d: real, levels: seq<int>, r: nat)
    requires r < |levels| && levels[r] as real <= d
    requires forall i :: r < i < |levels| ==> d < levels[i] as real
    ensures r == LastAtMost(d, levels)
  {
    var f := LastAtMost(d, levels);
    assert levels[r] as real <= d;
    if f < |levels| {
      assert f >= r;
    }
  }

  /** On strictly increasing levels that start at or below `d`, this lookup
      gives the level before the one the other drafts pick, unless `d` is a
      level itself. */
  lemma LookupsCompared(d: real, levels: seq<int>)
    requires forall i, j :: 0 <= i < j < |levels| ==> levels[i] < levels[j]
    requires |levels| > 0 && levels[0] as real <= d
    ensures var f := FirstAtLeast(d, levels);
            LastAtMost(d, levels) == f - 1 ||
            (f < |levels| && levels[f] as real == d && LastAtMost(d, levels) == f)
  {
    var f := FirstAtLeast(d, levels);
    var l := LastAtMost(d, levels);
    if f < |levels| && levels[f] as real == d {
      LastAtMostUnique(d, levels, f);
    } else {
      if f < |levels| {
        assert d < levels[f] as real;
      }
      assert levels[0] as real <= d;
      LastAtMostUnique(d, levels, f - 1);
    }
  }

  /** The lookup on the levels of the FR4 table of teste3.py. */
  lemma LastAtMostExamples()
    ensures LastAtMost(30.0, [5, 10, 20, 40, 70]) == 2
    ensures LastAtMost(1.0, [5, 10, 20, 40, 70]) == 0
    ensures LastAtMost(100.0, [5, 10, 20, 40, 70]) == 4
    ensures LastAtMost(2.0, [1]) == 0
  {
    LastAtMostUnique(30.0, [5, 10, 20, 40, 70], 2);
    LastAtMostUnique(100.0, [5, 10, 20, 40, 70], 4);
    LastAtMostUnique(2.0, [1], 0);
  }
}
