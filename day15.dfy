/**
 * Beacon exclusion zone (solutions/day15.py).
 *
 * Each sensor rules out the closed L1 ball around it whose radius is the
 * distance to its closest beacon. A row of that ball is a closed interval, and
 * coalescing the intervals of all sensors gives the number of ruled-out cells
 * on the row. The uncovered point of a bounded square is searched for among
 * the crossings of the lines that run just outside each diamond.
 */
module Day15 {
  import opened Wrappers
  import opened PyOps
  import opened Sorting

  datatype Coord = Coord(x: int, y: int)

  /** The closed interval lo..hi of integers; empty when lo > hi. */
  datatype Interval = Interval(lo: int, hi: int)

  /** One input record: a sensor and the closest beacon it reports. */
  datatype Observation = Observation(sensor: Coord, beacon: Coord)

  datatype Sensor = Sensor(pos: Coord, radius: nat)

  /**
   * The model built from the observations: the sensors in first-insertion
   * order (a Python dict) and, per row, the distinct beacons on that row.
   */
  datatype SensorGrid = SensorGrid(sensors: seq<Sensor>, beacons: map<int, set<Coord>>)

  // ---------------------------------------------------------------- distance

  function L1Dist(c1: Coord, c2: Coord): (d: nat)
    ensures d == 0 <==> c1 == c2
    ensures d >= Abs(c1.x - c2.x) && d >= Abs(c1.y - c2.y)
  {
    Abs(c1.x - c2.x) + Abs(c1.y - c2.y)
  }

  lemma L1Symmetric(c1: Coord, c2: Coord)
    ensures L1Dist(c1, c2) == L1Dist(c2, c1)
  {
  }

  lemma L1Triangle(a: Coord, b: Coord, c: Coord)
    ensures L1Dist(a, c) <= L1Dist(a, b) + L1Dist(b, c)
  {
  }

  // --------------------------------------------------------------- intervals

  predicate InInterval(iv: Interval, z: int)
  {
    iv.lo <= z <= iv.hi
  }

  /** Some interval of `ivs` contains `z`. */
  predicate Covers(ivs: seq<Interval>, z: int)
  {
    exists k :: 0 <= k < |ivs| && InInterval(ivs[k], z)
  }

  predicate WellFormed(ivs: seq<Interval>)
  {
    forall k :: 0 <= k < |ivs| ==> ivs[k].lo <= ivs[k].hi
  }

  /**
   * Well formed, and each interval starts more than one past the end of the
   * one before it: sorted, disjoint and not adjacent.
   */
  predicate Canonical(ivs: seq<Interval>)
  {
    WellFormed(ivs) && forall k :: 0 < k < |ivs| ==> ivs[k - 1].hi + 1 < ivs[k].lo
  }

  function Lo(iv: Interval): int
  {
    iv.lo
  }

  lemma {:induction false} CanonicalIsSorted(ivs: seq<Interval>)
    requires Canonical(ivs)
    ensures SortedBy(ivs, Lo)
    ensures forall i, j :: 0 <= i < j < |ivs| ==> ivs[i].hi + 1 < ivs[j].lo
  {
    forall i, j | 0 <= i < j < |ivs|
      ensures ivs[i].hi + 1 < ivs[j].lo
    {
      var k := i + 1;
      while k < j
        invariant i < k <= j
        invariant ivs[i].hi + 1 < ivs[k].lo
      {
        k := k + 1;
      }
    }
  }

  lemma CoversAppend(ivs: seq<Interval>, iv: Interval, z: int)
    ensures Covers(ivs + [iv], z) <==> Covers(ivs, z) || InInterval(iv, z)
  {
    if Covers(ivs, z) {
      var k :| 0 <= k < |ivs| && InInterval(ivs[k], z);
      assert (ivs + [iv])[k] == ivs[k];
    }
    if InInterval(iv, z) {
      assert (ivs + [iv])[|ivs|] == iv;
    }
    if Covers(ivs + [iv], z) {
      var k :| 0 <= k < |ivs + [iv]| && InInterval((ivs + [iv])[k], z);
      if k < |ivs| {
        assert (ivs + [iv])[k] == ivs[k];
      }
    }
  }

  lemma CoversSameElements(a: seq<Interval>, b: seq<Interval>, z: int)
    requires multiset(a) == multiset(b)
    ensures Covers(a, z) <==> Covers(b, z)
  {
    if Covers(a, z) {
      var k :| 0 <= k < |a| && InInterval(a[k], z);
      assert a[k] in multiset(b);
    }
    if Covers(b, z) {
      var k :| 0 <= k < |b| && InInterval(b[k], z);
      assert b[k] in multiset(a);
    }
  }

  /** The two lists cover the same integers. */
  ghost predicate SameCoverage(a: seq<Interval>, b: seq<Interval>)
  {
    forall z :: Covers(a, z) <==> Covers(b, z)
  }

  lemma SameCoverageAppend(a: seq<Interval>, b: seq<Interval>, iv: Interval)
    requires SameCoverage(a, b)
    ensures SameCoverage(a + [iv], b + [iv])
  {
    forall z
      ensures Covers(a + [iv], z) <==> Covers(b + [iv], z)
    {
      CoversAppend(a, iv, z);
      CoversAppend(b, iv, z);
    }
  }

  /** Merging `iv` into `last` covers what the two of them cover. */
  lemma MergeCoverage(front: seq<Interval>, last: Interval, iv: Interval)
    requires last.lo <= iv.lo <= last.hi + 1
    ensures SameCoverage(front + [Interval(last.lo, Max(last.hi, iv.hi))], front + [last] + [iv])
  {
    var merged := Interval(last.lo, Max(last.hi, iv.hi));
    forall z
      ensures Covers(front + [merged], z) <==> Covers(front + [last] + [iv], z)
    {
      CoversAppend(front, merged, z);
      CoversAppend(front + [last], iv, z);
      CoversAppend(front, last, z);
    }
  }

  predicate LoSorted(s: seq<Interval>)
  {
    forall i, j :: 0 <= i < j < |s| ==> s[i].lo <= s[j].lo
  }

  /** The merge loop over intervals already sorted by lower bound. */
  method MergeSorted(sorted: seq<Interval>) returns (res: seq<Interval>)
    requires |sorted| > 0 && LoSorted(sorted)
    ensures |res| <= |sorted|
    ensures SameCoverage(res, sorted)
    ensures WellFormed(sorted) ==> Canonical(res)
    ensures Canonical(sorted) ==> res == sorted
  {
    res := [sorted[0]];
    assert sorted[..1] == res;
    for i := 1 to |sorted|
      invariant 1 <= |res| <= i
      invariant SameCoverage(res, sorted[..i])
      invariant forall j :: i <= j < |sorted| ==> res[|res| - 1].lo <= sorted[j].lo
      invariant WellFormed(sorted) ==> Canonical(res)
      invariant Canonical(sorted) ==> res == sorted[..i]
    {
      var iv := sorted[i];
      var last := res[|res| - 1];
      var front := res[..|res| - 1];
      assert res == front + [last];
      assert sorted[..i + 1] == sorted[..i] + [iv];
      SameCoverageAppend(res, sorted[..i], iv);
      if iv.lo <= last.hi + 1 {
        MergeCoverage(front, last, iv);
        res := front + [Interval(last.lo, Max(last.hi, iv.hi))];
      } else {
        res := res + [iv];
      }
    }
    assert sorted[..|sorted|] == sorted;
  }

  /**
   * Sorting by lower bound keeps the covered points and well-formedness,
   * and leaves canonical intervals as they are.
   */
  lemma SortedIntervals(intervals: seq<Interval>)
    ensures var sorted := SortBy(intervals, Lo);
            SameCoverage(sorted, intervals) && LoSorted(sorted)
            && (WellFormed(intervals) ==> WellFormed(sorted))
            && (Canonical(intervals) ==> sorted == intervals)
  {
    var sorted := SortBy(intervals, Lo);
    forall z
      ensures Covers(sorted, z) <==> Covers(intervals, z)
    {
      CoversSameElements(sorted, intervals, z);
    }
    if WellFormed(intervals) {
      forall k | 0 <= k < |sorted|
        ensures sorted[k].lo <= sorted[k].hi
      {
        assert sorted[k] in multiset(intervals);
      }
    }
    if Canonical(intervals) {
      CanonicalIsSorted(intervals);
      SortSorted(intervals, Lo);
    }
    SortBySorted(intervals, Lo);
  }

  /**
   * Coalesces closed intervals: sorts by lower bound and merges each interval
   * into the last merged one when it starts at most one past its end.
   */
  method IntervalUnion(intervals: seq<Interval>) returns (res: seq<Interval>)
    ensures |intervals| < 2 ==> res == intervals
    ensures |res| <= |intervals|
    ensures forall z :: Covers(res, z) <==> Covers(intervals, z)
    ensures WellFormed(intervals) ==> Canonical(res)
    ensures Canonical(intervals) ==> res == intervals
  {
    if |intervals| < 2 {
      return intervals;
    }
    var sorted := SortBy(intervals, Lo);
    SortedIntervals(intervals);
    res := MergeSorted(sorted);
  }

  // ----------------------------------------------------- counting a covered row

  ghost function RangeSet(lo: int, hi: int): set<int>
  {
    set z | lo <= z <= hi && InInterval(Interval(lo, hi), z)
  }

  /** The integers that the intervals cover. */
  ghost function CoveredSet(ivs: seq<Interval>): set<int>
  {
    if ivs == [] then {}
    else CoveredSet(ivs[..|ivs| - 1]) + RangeSet(ivs[|ivs| - 1].lo, ivs[|ivs| - 1].hi)
  }

  /** The sum of the interval lengths, `hi - lo + 1` each. */
  function TotalLength(ivs: seq<Interval>): int
  {
    if ivs == [] then 0 else TotalLength(ivs[..|ivs| - 1]) + (1 + ivs[|ivs| - 1].hi - ivs[|ivs| - 1].lo)
  }

  lemma {:induction false} RangeSetSize(lo: int, hi: int)
    requires lo <= hi + 1
    ensures |RangeSet(lo, hi)| == hi - lo + 1
    decreases hi - lo
  {
    if lo <= hi {
      RangeSetSize(lo, hi - 1);
      assert RangeSet(lo, hi) == RangeSet(lo, hi - 1) + {hi};
    } else {
      assert RangeSet(lo, hi) == {};
    }
  }

  lemma {:induction false} CoveredSetMembers(ivs: seq<Interval>, z: int)
    ensures z in CoveredSet(ivs) <==> Covers(ivs, z)
    decreases |ivs|
  {
    if ivs != [] {
      var front, last := ivs[..|ivs| - 1], ivs[|ivs| - 1];
      assert ivs == front + [last];
      CoveredSetMembers(front, z);
      CoversAppend(front, last, z);
    }
  }

  /** Every integer the intervals cover is below `b` when every upper end is. */
  lemma CoveredSetBelow(ivs: seq<Interval>, b: int, z: int)
    requires forall k :: 0 <= k < |ivs| ==> ivs[k].hi < b
    requires z in CoveredSet(ivs)
    ensures z < b
  {
    CoveredSetMembers(ivs, z);
  }

  /** For a canonical list, the summed lengths count every covered integer exactly once. */
  lemma {:induction false} CanonicalLength(ivs: seq<Interval>)
    requires Canonical(ivs)
    ensures TotalLength(ivs) == |CoveredSet(ivs)|
    decreases |ivs|
  {
    if ivs != [] {
      var front, last := ivs[..|ivs| - 1], ivs[|ivs| - 1];
      assert Canonical(front);
      CanonicalLength(front);
      CanonicalIsSorted(ivs);
      assert CoveredSet(front) !! RangeSet(last.lo, last.hi) by {
        forall z | z in CoveredSet(front)
          ensures z < last.lo
        {
          CoveredSetBelow(front, last.lo, z);
        }
      }
      RangeSetSize(last.lo, last.hi);
    }
  }

  /** The sensor rules out the cell `c`: no beacon other than the reported one can be there. */
  predicate SensorCovers(s: Sensor, c: Coord)
  {
    L1Dist(c, s.pos) <= s.radius
  }

  /** The x-coordinates on row `y` that some sensor rules out. */
  ghost function RowCoverage(sensors: seq<Sensor>, y: int): set<int>
  {
    set k, x | 0 <= k < |sensors| && sensors[k].pos.x - sensors[k].radius <= x <= sensors[k].pos.x + sensors[k].radius
                 && SensorCovers(sensors[k], Coord(x, y)) :: x
  }

  lemma RowCoverageMembers(sensors: seq<Sensor>, y: int, x: int)
    ensures x in RowCoverage(sensors, y) <==> exists k :: 0 <= k < |sensors| && SensorCovers(sensors[k], Coord(x, y))
  {
    if k :| 0 <= k < |sensors| && SensorCovers(sensors[k], Coord(x, y)) {
      assert sensors[k].pos.x - sensors[k].radius <= x <= sensors[k].pos.x + sensors[k].radius;
    }
  }

  function BeaconsOnRow(g: SensorGrid, y: int): set<Coord>
  {
    if y in g.beacons then g.beacons[y] else {}
  }

  /**
   * The number of cells of row `y` that cannot hold a beacon: the cells some
   * sensor rules out, less the beacons known to be on the row.
   */
  method CountImpossibleBeaconCoords(g: SensorGrid, y: int) returns (count: int)
    ensures count == |RowCoverage(g.sensors, y)| - |BeaconsOnRow(g, y)|
  {
    var intervals: seq<Interval> := [];
    for i := 0 to |g.sensors|
      invariant WellFormed(intervals)
      invariant forall x :: Covers(intervals, x) <==> exists k :: 0 <= k < i && SensorCovers(g.sensors[k], Coord(x, y))
    {
      var s := g.sensors[i];
      var d := s.radius;
      if s.pos.y - d <= y <= s.pos.y + d {
        var dx := d - Abs(s.pos.y - y);
        var iv := Interval(s.pos.x - dx, s.pos.x + dx);
        forall x
          ensures Covers(intervals + [iv], x) <==> exists k :: 0 <= k < i + 1 && SensorCovers(g.sensors[k], Coord(x, y))
        {
          CoversAppend(intervals, iv, x);
        }
        intervals := intervals + [iv];
      }
    }
    var merged := IntervalUnion(intervals);
    CanonicalLength(merged);
    assert CoveredSet(merged) == RowCoverage(g.sensors, y) by {
      forall x
        ensures x in CoveredSet(merged) <==> x in RowCoverage(g.sensors, y)
      {
        CoveredSetMembers(merged, x);
        RowCoverageMembers(g.sensors, y, x);
      }
    }
    count := TotalLength(merged) - |BeaconsOnRow(g, y)|;
  }

  // ---------------------------------------------------------- building the grid

  /** No two sensors share a position. */
  predicate DistinctPositions(sensors: seq<Sensor>)
  {
    forall i, j :: 0 <= i < j < |sensors| ==> sensors[i].pos != sensors[j].pos
  }

  /** No record after record `i` reports the same sensor position. */
  predicate LastFor(records: seq<Observation>, i: int)
    requires 0 <= i < |records|
  {
    forall j :: i < j < |records| ==> records[j].sensor != records[i].sensor
  }

  function IndexOfSensor(sensors: seq<Sensor>, pos: Coord): (k: nat)
    ensures k <= |sensors|
    ensures k < |sensors| ==> sensors[k].pos == pos
    ensures k == |sensors| ==> forall j :: 0 <= j < |sensors| ==> sensors[j].pos != pos
  {
    if sensors == [] then 0
    else if sensors[0].pos == pos then 0
    else 1 + IndexOfSensor(sensors[1..], pos)
  }

  /**
   * Python's `d[pos] = radius` on the insertion-ordered dictionary of sensors:
   * an existing entry is overwritten where it stands, a new one goes at the end.
   */
  function SetRadius(sensors: seq<Sensor>, pos: Coord, radius: nat): (t: seq<Sensor>)
    requires DistinctPositions(sensors)
    ensures DistinctPositions(t)
    ensures exists k :: 0 <= k < |t| && t[k] == Sensor(pos, radius)
    ensures forall k :: 0 <= k < |t| ==> t[k] == Sensor(pos, radius) || (t[k] in sensors && t[k].pos != pos)
    ensures forall k :: 0 <= k < |sensors| && sensors[k].pos != pos ==> sensors[k] in t
  {
    var k := IndexOfSensor(sensors, pos);
    if k < |sensors| then
      var t := sensors[k := Sensor(pos, radius)];
      assert t[k] == Sensor(pos, radius);
      assert forall j :: 0 <= j < |sensors| && sensors[j].pos != pos ==> t[j] == sensors[j];
      t
    else
      var t := sensors + [Sensor(pos, radius)];
      assert t[|sensors|] == Sensor(pos, radius);
      assert forall j :: 0 <= j < |sensors| ==> t[j] == sensors[j];
      t
  }

  /** The sensor dictionary after the constructor has read every record, in order. */
  function SensorsOf(records: seq<Observation>): (s: seq<Sensor>)
    ensures DistinctPositions(s)
  {
    if records == [] then []
    else
      var o := records[|records| - 1];
      SetRadius(SensorsOf(records[..|records| - 1]), o.sensor, L1Dist(o.sensor, o.beacon))
  }

  /** The beacons that the records place on row `y`. */
  ghost function BeaconRow(records: seq<Observation>, y: int): set<Coord>
  {
    set i | 0 <= i < |records| && records[i].beacon.y == y :: records[i].beacon
  }

  /** The `beacons` dictionary: each row some beacon lies on, mapped to that row's beacons. */
  ghost function BeaconsOf(records: seq<Observation>): map<int, set<Coord>>
  {
    map y | y in (set i | 0 <= i < |records| :: records[i].beacon.y) :: BeaconRow(records, y)
  }

  /** Every record's sensor position has an entry. */
  lemma {:induction false} SensorsOfComplete(records: seq<Observation>, i: nat)
    requires i < |records|
    ensures exists k :: 0 <= k < |SensorsOf(records)| && SensorsOf(records)[k].pos == records[i].sensor
    decreases |records|
  {
    var front, o := records[..|records| - 1], records[|records| - 1];
    var s := SensorsOf(front);
    if i < |records| - 1 && o.sensor != records[i].sensor {
      assert front[i] == records[i];
      SensorsOfComplete(front, i);
      var k :| 0 <= k < |s| && s[k].pos == records[i].sensor;
      var t := SensorsOf(records);
      assert s[k] in t;
      var k' :| 0 <= k' < |t| && t[k'] == s[k];
    } else {
      var t := SensorsOf(records);
      var k :| 0 <= k < |t| && t[k] == Sensor(o.sensor, L1Dist(o.sensor, o.beacon));
      assert i == |records| - 1 || o.sensor == records[i].sensor;
    }
  }

  /** Every entry holds the distance of the last record for its position: later records overwrite. */
  lemma {:induction false} SensorsOfLastWins(records: seq<Observation>, k: nat)
    requires k < |SensorsOf(records)|
    ensures exists i :: 0 <= i < |records| && LastFor(records, i) && records[i].sensor == SensorsOf(records)[k].pos
                        && SensorsOf(records)[k].radius == L1Dist(records[i].sensor, records[i].beacon)
    decreases |records|
  {
    var front, o := records[..|records| - 1], records[|records| - 1];
    var s, t := SensorsOf(front), SensorsOf(records);
    if t[k] == Sensor(o.sensor, L1Dist(o.sensor, o.beacon)) {
      assert LastFor(records, |records| - 1);
    } else {
      assert t[k] in s && t[k].pos != o.sensor;
      var k' :| 0 <= k' < |s| && s[k'] == t[k];
      SensorsOfLastWins(front, k');
      var i :| 0 <= i < |front| && LastFor(front, i) && front[i].sensor == s[k'].pos
               && s[k'].radius == L1Dist(front[i].sensor, front[i].beacon);
      assert records[i] == front[i];
      forall j | i < j < |records|
        ensures records[j].sensor != records[i].sensor
      {
        if j < |records| - 1 {
          assert records[j] == front[j];
        }
      }
    }
  }

  /**
   * Builds the model: each record sets its sensor's radius (a later record for
   * the same position overwrites it in place) and adds its beacon to its row.
   */
  method BuildSensorGrid(records: seq<Observation>) returns (g: SensorGrid)
    ensures g == SensorGrid(SensorsOf(records), BeaconsOf(records))
  {
    var sensors: seq<Sensor> := [];
    var beacons: map<int, set<Coord>> := map[];
    for i := 0 to |records|
      invariant sensors == SensorsOf(records[..i])
      invariant BeaconsSoFar(records, i, beacons)
    {
      var o := records[i];
      SensorsStep(records, i);
      var entry := Sensor(o.sensor, L1Dist(o.sensor, o.beacon));
      var k := IndexOfSensor(sensors, o.sensor);
      if k < |sensors| {
        sensors := sensors[k := entry];
      } else {
        sensors := sensors + [entry];
      }
      var row := if o.beacon.y in beacons then beacons[o.beacon.y] else {};
      BeaconsStep(records, i, beacons);
      beacons := beacons[o.beacon.y := row + {o.beacon}];
    }
    assert records[..|records|] == records;
    BeaconsAll(records, beacons);
    g := SensorGrid(sensors, beacons);
  }

  /** The beacon dictionary after the first `i` records: their rows, each with its beacons. */
  ghost predicate BeaconsSoFar(records: seq<Observation>, i: nat, beacons: map<int, set<Coord>>)
    requires i <= |records|
  {
    (forall y :: y in beacons <==> exists i' :: 0 <= i' < i && records[i'].beacon.y == y)
    && forall y :: y in beacons ==> beacons[y] == BeaconRow(records[..i], y)
  }

  lemma SensorsStep(records: seq<Observation>, i: nat)
    requires i < |records|
    ensures var o := records[i];
            SensorsOf(records[..i + 1]) == SetRadius(SensorsOf(records[..i]), o.sensor, L1Dist(o.sensor, o.beacon))
  {
    assert records[..i + 1][..i] == records[..i];
  }

  /** Adding record `i`'s beacon to its row. */
  lemma BeaconsStep(records: seq<Observation>, i: nat, beacons: map<int, set<Coord>>)
    requires i < |records| && BeaconsSoFar(records, i, beacons)
    ensures var b := records[i].beacon;
            var row := if b.y in beacons then beacons[b.y] else {};
            BeaconsSoFar(records, i + 1, beacons[b.y := row + {b}])
  {
    var b := records[i].beacon;
    var row := if b.y in beacons then beacons[b.y] else {};
    var beacons' := beacons[b.y := row + {b}];
    forall y | y in beacons'
      ensures beacons'[y] == BeaconRow(records[..i + 1], y)
    {
      BeaconRowStep(records, i, y);
    }
  }

  lemma BeaconsAll(records: seq<Observation>, beacons: map<int, set<Coord>>)
    requires BeaconsSoFar(records, |records|, beacons)
    ensures beacons == BeaconsOf(records)
  {
    assert records[..|records|] == records;
    forall y
      ensures y in beacons <==> y in BeaconsOf(records)
    {
      if y in beacons {
        var i :| 0 <= i < |records| && records[i].beacon.y == y;
      }
    }
  }

  lemma BeaconRowStep(records: seq<Observation>, i: nat, y: int)
    requires i < |records|
    ensures BeaconRow(records[..i + 1], y)
            == BeaconRow(records[..i], y) + (if records[i].beacon.y == y then {records[i].beacon} else {})
  {
    var p, q := records[..i + 1], records[..i];
    assert forall j :: 0 <= j < i ==> p[j] == q[j];
    assert p[i] == records[i];
  }

  /** Every known beacon lies on its own row and inside some sensor's range. */
  ghost predicate BeaconsCovered(g: SensorGrid)
  {
    forall y, b :: y in g.beacons && b in g.beacons[y] ==>
      b.y == y && exists k :: 0 <= k < |g.sensors| && SensorCovers(g.sensors[k], b)
  }

  /** With one record per sensor, each sensor's radius reaches its own beacon. */
  lemma BuiltGridCoversBeacons(records: seq<Observation>)
    requires forall i, j :: 0 <= i < j < |records| ==> records[i].sensor != records[j].sensor
    ensures BeaconsCovered(SensorGrid(SensorsOf(records), BeaconsOf(records)))
  {
    var g := SensorGrid(SensorsOf(records), BeaconsOf(records));
    forall y, b | y in g.beacons && b in g.beacons[y]
      ensures b.y == y && exists k :: 0 <= k < |g.sensors| && SensorCovers(g.sensors[k], b)
    {
      var i :| 0 <= i < |records| && records[i].beacon.y == y && records[i].beacon == b;
      SensorsOfComplete(records, i);
      var k :| 0 <= k < |g.sensors| && g.sensors[k].pos == records[i].sensor;
      SensorsOfLastWins(records, k);
      var i' :| 0 <= i' < |records| && LastFor(records, i') && records[i'].sensor == g.sensors[k].pos
                && g.sensors[k].radius == L1Dist(records[i'].sensor, records[i'].beacon);
      L1Symmetric(b, records[i].sensor);
      assert SensorCovers(g.sensors[k], b);
    }
  }

  lemma {:induction false} InjectiveImageSize(bs: set<Coord>, xs: set<int>, y: int)
    requires forall b :: b in bs ==> b.y == y && b.x in xs
    ensures |bs| <= |xs|
    decreases |bs|
  {
    if bs != {} {
      var b :| b in bs;
      var rest := bs - {b};
      forall b' | b' in rest
        ensures b'.y == y && b'.x in xs - {b.x}
      {
        assert b' != b;
      }
      InjectiveImageSize(rest, xs - {b.x}, y);
    }
  }

  /** When every beacon lies inside some sensor's range, the row count is never negative. */
  lemma ExclusionCountNonNegative(g: SensorGrid, y: int)
    requires BeaconsCovered(g)
    ensures |BeaconsOnRow(g, y)| <= |RowCoverage(g.sensors, y)|
  {
    forall b | b in BeaconsOnRow(g, y)
      ensures b.y == y && b.x in RowCoverage(g.sensors, y)
    {
      var k :| 0 <= k < |g.sensors| && SensorCovers(g.sensors[k], b);
      assert b == Coord(b.x, y);
      RowCoverageMembers(g.sensors, y, b.x);
    }
    InjectiveImageSize(BeaconsOnRow(g, y), RowCoverage(g.sensors, y), y);
  }

  // ----------------------------------------------------------- line algebra

  /** The line of integer points with `a * x + b * y == c`. */
  datatype Line = Line(a: int, b: int, c: int)

  predicate OnLine(l: Line, p: Coord)
  {
    l.a * p.x + l.b * p.y == l.c
  }

  /** The line through two points (the constructor of AffineRelation). */
  function LineThrough(c1: Coord, c2: Coord): (l: Line)
    ensures OnLine(l, c1) && OnLine(l, c2)
    ensures c1 != c2 ==> l.a != 0 || l.b != 0
  {
    var a := c1.y - c2.y;
    var b := c2.x - c1.x;
    assert a * c2.x + b * c2.y == c1.x * a + c1.y * b by {
      assert a * c2.x + b * c2.y == c1.y * c2.x - c1.x * c2.y;
      assert c1.x * a + c1.y * b == c1.y * c2.x - c1.x * c2.y;
    }
    Line(a, b, c1.x * a + c1.y * b)
  }

  function Det(l1: Line, l2: Line): int
  {
    l1.a * l2.b - l1.b * l2.a
  }

  /** The numerators of Cramer's rule for the crossing of two lines. */
  function NumX(l1: Line, l2: Line): int
  {
    l2.b * l1.c - l1.b * l2.c
  }

  function NumY(l1: Line, l2: Line): int
  {
    l1.a * l2.c - l2.a * l1.c
  }

  /**
   * The crossing of two lines, each coordinate rounded down as Python's `//`
   * does; none when the lines are parallel.
   */
  function IntersectionPoint(l1: Line, l2: Line): (r: Option<Coord>)
    ensures r.None? <==> Det(l1, l2) == 0
  {
    var det := Det(l1, l2);
    if det == 0 then None
    else Some(Coord(FloorDiv(NumX(l1, l2), det), FloorDiv(NumY(l1, l2), det)))
  }

  lemma CramerX(l1: Line, l2: Line, p: Coord)
    requires OnLine(l1, p) && OnLine(l2, p)
    ensures Det(l1, l2) * p.x == NumX(l1, l2)
    ensures Det(l1, l2) * p.y == NumY(l1, l2)
  {
    calc {
      NumX(l1, l2);
      l2.b * (l1.a * p.x + l1.b * p.y) - l1.b * (l2.a * p.x + l2.b * p.y);
      { assert l2.b * (l1.a * p.x + l1.b * p.y) == l2.b * l1.a * p.x + l2.b * l1.b * p.y;
        assert l1.b * (l2.a * p.x + l2.b * p.y) == l1.b * l2.a * p.x + l1.b * l2.b * p.y; }
      (l1.a * l2.b - l1.b * l2.a) * p.x;
    }
    calc {
      NumY(l1, l2);
      l1.a * (l2.a * p.x + l2.b * p.y) - l2.a * (l1.a * p.x + l1.b * p.y);
      { assert l1.a * (l2.a * p.x + l2.b * p.y) == l1.a * l2.a * p.x + l1.a * l2.b * p.y;
        assert l2.a * (l1.a * p.x + l1.b * p.y) == l2.a * l1.a * p.x + l2.a * l1.b * p.y; }
      (l1.a * l2.b - l1.b * l2.a) * p.y;
    }
  }

  lemma MulNonNeg(a: int, b: int)
    requires a >= 0 && b >= 0
    ensures a * b >= 0
  {
  }

  lemma MulAtLeast(d: int, k: int)
    requires d > 0 && k >= 1
    ensures d * k >= d
  {
    MulNonNeg(d, k - 1);
    assert d * k == d * (k - 1) + d;
  }

  lemma MulNegative(d: int, k: int)
    requires d > 0 && k <= -1
    ensures d * k < 0
  {
    MulNonNeg(d, -k);
    assert d * k == -(d * (-k));
  }

  /** A multiple of a positive d that lies in 0..d-1 is zero. */
  lemma MulBetween(d: int, k: int)
    requires d > 0 && 0 <= d * k < d
    ensures k == 0
  {
    if k >= 1 { MulAtLeast(d, k); }
    if k <= -1 { MulNegative(d, k); }
  }

  lemma FloorDivExact(n: int, d: int, q: int)
    requires d != 0 && n == d * q
    ensures FloorDiv(n, d) == q
  {
    var r := FloorDiv(n, d);
    if d > 0 {
      assert d * q - d * r == d * (q - r);
      MulBetween(d, q - r);
    } else {
      assert d * r - d * q == (-d) * (q - r);
      MulBetween(-d, q - r);
    }
  }

  /** Two non-parallel lines meeting at an integer point: that point is the one returned. */
  lemma IntersectionUnique(l1: Line, l2: Line, p: Coord)
    requires Det(l1, l2) != 0
    requires OnLine(l1, p) && OnLine(l2, p)
    ensures IntersectionPoint(l1, l2) == Some(p)
  {
    CramerX(l1, l2, p);
    FloorDivExact(NumX(l1, l2), Det(l1, l2), p.x);
    FloorDivExact(NumY(l1, l2), Det(l1, l2), p.y);
  }

  lemma MulCancel(d: int, u: int, v: int)
    requires d != 0 && d * u == d * v
    ensures u == v
  {
    assert d * (u - v) == 0;
  }

  lemma Distribute(d: int, a: int, x: int, b: int, y: int)
    ensures d * (a * x + b * y) == a * (d * x) + b * (d * y)
  {
  }

  /** The polynomial identities behind substituting Cramer's solution back into each line. */
  lemma CramerIdentities(a1: int, b1: int, c1: int, a2: int, b2: int, c2: int)
    ensures a1 * (b2 * c1 - b1 * c2) + b1 * (a1 * c2 - a2 * c1) == (a1 * b2 - b1 * a2) * c1
    ensures a2 * (b2 * c1 - b1 * c2) + b2 * (a1 * c2 - a2 * c1) == (a1 * b2 - b1 * a2) * c2
  {
  }

  /** When the determinant divides both numerators, the returned point lies on both lines. */
  lemma IntersectionOnBothLines(l1: Line, l2: Line)
    requires Det(l1, l2) != 0
    requires PyMod(NumX(l1, l2), Det(l1, l2)) == 0 && PyMod(NumY(l1, l2), Det(l1, l2)) == 0
    ensures IntersectionPoint(l1, l2).Some?
    ensures OnLine(l1, IntersectionPoint(l1, l2).value) && OnLine(l2, IntersectionPoint(l1, l2).value)
  {
    var det := Det(l1, l2);
    var p := IntersectionPoint(l1, l2).value;
    assert det * p.x == NumX(l1, l2);
    assert det * p.y == NumY(l1, l2);
    Distribute(det, l1.a, p.x, l1.b, p.y);
    Distribute(det, l2.a, p.x, l2.b, p.y);
    CramerIdentities(l1.a, l1.b, l1.c, l2.a, l2.b, l2.c);
    MulCancel(det, l1.a * p.x + l1.b * p.y, l1.c);
    MulCancel(det, l2.a * p.x + l2.b * p.y, l2.c);
  }

  /**
   * The floored point lies on both lines exactly when the determinant divides
   * both numerators: whenever the crossing is not an integer point, the
   * returned point is off at least one of the lines.
   */
  lemma IntersectionExact(l1: Line, l2: Line)
    requires Det(l1, l2) != 0
    ensures var p := IntersectionPoint(l1, l2).value;
            OnLine(l1, p) && OnLine(l2, p) <==> PyMod(NumX(l1, l2), Det(l1, l2)) == 0 && PyMod(NumY(l1, l2), Det(l1, l2)) == 0
  {
    var p := IntersectionPoint(l1, l2).value;
    if OnLine(l1, p) && OnLine(l2, p) {
      CramerX(l1, l2, p);
    }
    if PyMod(NumX(l1, l2), Det(l1, l2)) == 0 && PyMod(NumY(l1, l2), Det(l1, l2)) == 0 {
      IntersectionOnBothLines(l1, l2);
    }
  }

  /** Lines that meet between integer points: the rounded-down point is on neither line. */
  lemma IntersectionRoundsDown()
    ensures IntersectionPoint(Line(1, 1, 1), Line(1, -1, 0)) == Some(Coord(0, 0))
    ensures !OnLine(Line(1, 1, 1), Coord(0, 0))
  {
    assert Det(Line(1, 1, 1), Line(1, -1, 0)) == -2;
    assert FloorDiv(-1, -2) == 0;
  }

  // ------------------------------------------------------- boundary lines

  /**
   * The four lines through the corners of the diamond one step outside the
   * sensor's range.
   */
  function SensorBoundaryLines(s: Sensor): (ls: seq<Line>)
    ensures |ls| == 4
    ensures var x, y, d := s.pos.x, s.pos.y, s.radius + 1;
            OnLine(ls[0], Coord(x, y + d)) && OnLine(ls[0], Coord(x + d, y))
            && OnLine(ls[1], Coord(x, y + d)) && OnLine(ls[1], Coord(x - d, y))
            && OnLine(ls[2], Coord(x, y - d)) && OnLine(ls[2], Coord(x + d, y))
            && OnLine(ls[3], Coord(x, y - d)) && OnLine(ls[3], Coord(x - d, y))
  {
    var x, y, d := s.pos.x, s.pos.y, s.radius + 1;
    [LineThrough(Coord(x, y + d), Coord(x + d, y)), LineThrough(Coord(x, y + d), Coord(x - d, y)),
     LineThrough(Coord(x, y - d), Coord(x + d, y)), LineThrough(Coord(x, y - d), Coord(x - d, y))]
  }

  /** Each boundary line passes through two distinct cells at distance radius + 1 from the sensor. */
  lemma BoundaryLinesThroughDiamond(s: Sensor, k: nat)
    requires k < 4
    ensures exists p, q :: L1Dist(p, s.pos) == s.radius + 1 && L1Dist(q, s.pos) == s.radius + 1
                           && p != q && OnLine(SensorBoundaryLines(s)[k], p) && OnLine(SensorBoundaryLines(s)[k], q)
  {
    var x, y, d := s.pos.x, s.pos.y, s.radius + 1;
    var ls := SensorBoundaryLines(s);
    var p := if k < 2 then Coord(x, y + d) else Coord(x, y - d);
    var q := if k % 2 == 0 then Coord(x + d, y) else Coord(x - d, y);
    assert ls[k] == LineThrough(p, q);
    assert L1Dist(p, s.pos) == d && L1Dist(q, s.pos) == d && p != q;
  }

  /**
   * The line through (x, y + i * d) and (x + j * d, y), for signs i and j,
   * holds the cell (x + dx, y + dy) whenever j * dx + i * dy == d.
   */
  lemma BoundaryCase(x: int, y: int, d: int, i: int, j: int, dx: int, dy: int)
    requires (i == 1 || i == -1) && (j == 1 || j == -1)
    requires j * dx + i * dy == d
    ensures OnLine(LineThrough(Coord(x, y + i * d), Coord(x + j * d, y)), Coord(x + dx, y + dy))
  {
    if i == 1 && j == 1 {
      assert y + i * d == y + d && x + j * d == x + d && dx + dy == d;
      assert d * dx + d * dy == d * d by { assert d * dx + d * dy == d * (dx + dy); }
      BoundaryCorner(x, y, d, d, dx, dy);
    } else if i == 1 {
      assert y + i * d == y + d && x + j * d == x - d && dy - dx == d;
      assert d * dx + (-d) * dy == d * (-d) by { assert d * dx + (-d) * dy == d * (dx - dy); }
      BoundaryCorner(x, y, d, -d, dx, dy);
    } else if j == 1 {
      assert y + i * d == y - d && x + j * d == x + d && dx - dy == d;
      assert (-d) * dx + d * dy == (-d) * d by { assert (-d) * dx + d * dy == d * (dy - dx); }
      BoundaryCorner(x, y, -d, d, dx, dy);
    } else {
      assert y + i * d == y - d && x + j * d == x - d && -dx - dy == d;
      assert (-d) * dx + (-d) * dy == (-d) * (-d) by { assert (-d) * dx + (-d) * dy == d * (-dx - dy); }
      BoundaryCorner(x, y, -d, -d, dx, dy);
    }
  }

  /** The line through (x, y + u) and (x + v, y) holds (x + dx, y + dy) when u * dx + v * dy == u * v. */
  lemma BoundaryCorner(x: int, y: int, u: int, v: int, dx: int, dy: int)
    requires u * dx + v * dy == u * v
    ensures OnLine(LineThrough(Coord(x, y + u), Coord(x + v, y)), Coord(x + dx, y + dy))
  {
    assert u * (x + dx) + v * (y + dy) == x * u + (y + u) * v by {
      assert u * (x + dx) == u * x + u * dx;
      assert v * (y + dy) == v * y + v * dy;
      assert (y + u) * v == y * v + u * v;
    }
  }

  /** Every cell at distance radius + 1 from the sensor lies on one of its four boundary lines. */
  lemma BoundaryOnLines(s: Sensor, p: Coord)
    requires L1Dist(p, s.pos) == s.radius + 1
    ensures exists k :: 0 <= k < 4 && OnLine(SensorBoundaryLines(s)[k], p)
  {
    var ls := SensorBoundaryLines(s);
    var x, y, d := s.pos.x, s.pos.y, s.radius + 1;
    var dx, dy := p.x - x, p.y - y;
    assert p == Coord(x + dx, y + dy);
    assert Abs(dx) + Abs(dy) == d;
    if dy >= 0 && dx >= 0 {
      BoundaryCase(x, y, d, 1, 1, dx, dy);
      assert OnLine(ls[0], p);
    } else if dy >= 0 {
      BoundaryCase(x, y, d, 1, -1, dx, dy);
      assert OnLine(ls[1], p);
    } else if dx >= 0 {
      BoundaryCase(x, y, d, -1, 1, dx, dy);
      assert OnLine(ls[2], p);
    } else {
      BoundaryCase(x, y, d, -1, -1, dx, dy);
      assert OnLine(ls[3], p);
    }
  }

  // ------------------------------------------------------------ the gap search

  /** Some extreme corner of the sensor's range has a coordinate inside 0..m. */
  predicate IsValidSensor(s: Sensor, m: int)
  {
    (0 <= s.pos.x - s.radius <= m) || (0 <= s.pos.x + s.radius <= m)
    || (0 <= s.pos.y - s.radius <= m) || (0 <= s.pos.y + s.radius <= m)
  }

  function ValidSensors(sensors: seq<Sensor>, m: int): (vs: seq<Sensor>)
    ensures forall k :: 0 <= k < |vs| ==> vs[k] in sensors && IsValidSensor(vs[k], m)
    ensures forall k :: 0 <= k < |sensors| && IsValidSensor(sensors[k], m) ==> sensors[k] in vs
  {
    if sensors == [] then []
    else
      var rest := ValidSensors(sensors[1..], m);
      assert forall k :: 1 <= k < |sensors| ==> sensors[k] == sensors[1..][k - 1];
      if IsValidSensor(sensors[0], m) then [sensors[0]] + rest else rest
  }

  /** The boundary lines of all the sensors, concatenated. */
  function AllBoundaryLines(sensors: seq<Sensor>): (ls: seq<Line>)
    ensures |ls| == 4 * |sensors|
    ensures forall k :: 0 <= k < |ls| ==> ls[k] == SensorBoundaryLines(sensors[k / 4])[k % 4]
  {
    if sensors == [] then []
    else
      var front := AllBoundaryLines(sensors[..|sensors| - 1]);
      var ls := front + SensorBoundaryLines(sensors[|sensors| - 1]);
      assert forall k :: 0 <= k < |front| ==> sensors[..|sensors| - 1][k / 4] == sensors[k / 4];
      ls
  }

  predicate InSquare(p: Coord, m: int)
  {
    0 <= p.x <= m && 0 <= p.y <= m
  }

  /** The crossing of lines `i` and `j` when it falls inside the square. */
  function Crossing(lines: seq<Line>, m: int, i: nat, j: nat): Option<Coord>
    requires i < |lines| && j < |lines|
  {
    var p := IntersectionPoint(lines[i], lines[j]);
    if p.Some? && InSquare(p.value, m) then p else None
  }

  ghost predicate IsCrossing(lines: seq<Line>, m: int, p: Coord)
  {
    exists i, j :: 0 <= i < |lines| && 0 <= j < |lines| && i != j && Crossing(lines, m, i, j) == Some(p)
  }

  /** Strictly outside the range of every given sensor. */
  predicate OutsideAll(sensors: seq<Sensor>, p: Coord)
  {
    forall k :: 0 <= k < |sensors| ==> L1Dist(p, sensors[k].pos) > sensors[k].radius
  }

  /** A crossing of two boundary lines in the square that no valid sensor covers. */
  ghost predicate IsGapCandidate(g: SensorGrid, m: int, p: Coord)
  {
    var valid := ValidSensors(g.sensors, m);
    IsCrossing(AllBoundaryLines(valid), m, p) && OutsideAll(valid, p)
  }

  function TuningFrequency(p: Coord): int
  {
    4000000 * p.x + p.y
  }

  /** The crossings of distinct lines that fall in the square (the set `intxs_pnts`). */
  method CrossingPoints(lines: seq<Line>, m: int) returns (points: set<Coord>)
    ensures forall p :: p in points <==> IsCrossing(lines, m, p)
  {
    points := {};
    for i := 0 to |lines|
      invariant forall p :: p in points ==> IsCrossing(lines, m, p)
      invariant forall a, b :: 0 <= a < i && 0 <= b < |lines| && a != b && Crossing(lines, m, a, b).Some? ==>
        Crossing(lines, m, a, b).value in points
    {
      for j := 0 to |lines|
        invariant forall p :: p in points ==> IsCrossing(lines, m, p)
        invariant forall a, b :: 0 <= a < i && 0 <= b < |lines| && a != b && Crossing(lines, m, a, b).Some? ==>
          Crossing(lines, m, a, b).value in points
        invariant forall b :: 0 <= b < j && i != b && Crossing(lines, m, i, b).Some? ==>
          Crossing(lines, m, i, b).value in points
      {
        if i != j {
          var cross := IntersectionPoint(lines[i], lines[j]);
          if cross.Some? && InSquare(cross.value, m) {
            assert Crossing(lines, m, i, j) == cross;
            points := points + {cross.value};
          }
        }
      }
    }
    forall p | IsCrossing(lines, m, p)
      ensures p in points
    {
      var a, b :| 0 <= a < |lines| && 0 <= b < |lines| && a != b && Crossing(lines, m, a, b) == Some(p);
    }
  }

  /**
   * The tuning frequency of some candidate gap, or 0 when there is none; the
   * reduce over the lines fails with TypeError when no sensor is valid.
   */
  method SignalTuningFrequency(g: SensorGrid, m: int) returns (r: Result<int>)
    ensures r.Err? <==> ValidSensors(g.sensors, m) == []
    ensures r.Err? ==> r.error == TypeError
    ensures r.Ok? ==> (exists p :: IsGapCandidate(g, m, p) && r.value == TuningFrequency(p))
                      || (r.value == 0 && forall p :: !IsGapCandidate(g, m, p))
  {
    var valid := ValidSensors(g.sensors, m);
    if valid == [] {
      return Err(TypeError);
    }
    var lines := AllBoundaryLines(valid);
    var points := CrossingPoints(lines, m);
    var rest := points;
    while rest != {}
      invariant rest <= points
      invariant forall p :: p in points - rest ==> !OutsideAll(valid, p)
      decreases |rest|
    {
      var p :| p in rest;
      if OutsideAll(valid, p) {
        assert IsGapCandidate(g, m, p);
        return Ok(TuningFrequency(p));
      }
      rest := rest - {p};
    }
    forall p
      ensures !IsGapCandidate(g, m, p)
    {
      if IsCrossing(lines, m, p) {
        assert p in points;
      }
    }
    return Ok(0);
  }
}
