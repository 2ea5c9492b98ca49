/**
 * Falling sand on a sparse grid: rock paths are drawn into a map from
 * coordinates to cells ('#' rock, 'o' sand, '.' air for any missing key),
 * and grains poured in at (500, 0) fall down, down-left or down-right until
 * they rest or pass the lowest rock.
 */
module Day14 {
  import opened Wrappers
  import opened PyOps
  import opened Text

  datatype Coord = Coord(x: int, y: int)

  /** The point sand is poured from. */
  const Source := Coord(500, 0)

  // ------------------------------------------------------------------ parsing

  /** `[int(v) for v in s.split(",")]` unpacked into two names. */
  function ParsePoint(s: string): Result<Coord>
  {
    var parts := SplitOn(s, ",");
    if |parts| != 2 then Err(ValueError)
    else
      match (ParseInt(parts[0]), ParseInt(parts[1]))
      case (Some(x), Some(y)) => Ok(Coord(x, y))
      case _ => Err(ValueError)
  }

  function ParsePoints(parts: seq<string>): (r: Result<seq<Coord>>)
    ensures r.Ok? ==> |r.value| == |parts|
  {
    if parts == [] then Ok([])
    else
      match (ParsePoints(parts[..|parts| - 1]), ParsePoint(parts[|parts| - 1]))
      case (Ok(ps), Ok(p)) => Ok(ps + [p])
      case _ => Err(ValueError)
  }

  /**
   * One scan line as a rock path. A line with fewer than two points has no
   * segment, so none of its points is ever converted; it draws nothing.
   */
  function ParsePath(scan: string): (r: Result<seq<Coord>>)
    ensures r.Ok? ==> r.value == [] || |r.value| >= 2
  {
    var parts := SplitOn(scan, " -> ");
    if |parts| < 2 then Ok([]) else ParsePoints(parts)
  }

  function ParseScans(scans: seq<string>): Result<seq<seq<Coord>>>
  {
    if scans == [] then Ok([])
    else
      match (ParseScans(scans[..|scans| - 1]), ParsePath(scans[|scans| - 1]))
      case (Ok(ps), Ok(p)) => Ok(ps + [p])
      case _ => Err(ValueError)
  }

  /** Every failure while reading the scans is a `ValueError`, and each path read is empty or has a segment. */
  lemma {:induction false} ParseScansShape(scans: seq<string>)
    ensures ParseScans(scans).Err? ==> ParseScans(scans).error == ValueError
    ensures ParseScans(scans).Ok? ==>
              |ParseScans(scans).value| == |scans|
              && forall i :: 0 <= i < |scans| ==> ParseScans(scans).value[i] == [] || |ParseScans(scans).value[i]| >= 2
  {
    if scans != [] {
      var front := scans[..|scans| - 1];
      ParseScansShape(front);
      if ParseScans(scans).Ok? {
        var ps := ParseScans(front).value;
        var p := ParsePath(scans[|scans| - 1]).value;
        assert ParseScans(scans).value == ps + [p];
      }
    }
  }

  // -------------------------------------------------------------------- rocks

  /**
   * The cells one pair of consecutive path points turns into rock: the
   * vertical or horizontal run between them, both ends included; nothing
   * for a diagonal pair.
   */
  function SegmentCells(a: Coord, b: Coord): set<Coord>
  {
    if a.x == b.x then set y | Min(a.y, b.y) <= y <= Max(a.y, b.y) :: Coord(a.x, y)
    else if a.y == b.y then set x | Min(a.x, b.x) <= x <= Max(a.x, b.x) :: Coord(x, a.y)
    else {}
  }

  /** Both ends of a straight segment are rock; a diagonal pair marks nothing. */
  lemma SegmentEnds(a: Coord, b: Coord)
    ensures a.x == b.x || a.y == b.y ==> a in SegmentCells(a, b) && b in SegmentCells(a, b)
    ensures a.x != b.x && a.y != b.y ==> SegmentCells(a, b) == {}
  {
  }

  /** The cells of all segments of one path. */
  function PathCells(p: seq<Coord>): set<Coord>
  {
    if |p| < 2 then {} else PathCells(p[..|p| - 1]) + SegmentCells(p[|p| - 2], p[|p| - 1])
  }

  /** A cell is on a path exactly when it is on one of its segments. */
  lemma {:induction false} PathCellsMeaning(p: seq<Coord>, c: Coord)
    ensures c in PathCells(p) <==> exists k :: 0 <= k < |p| - 1 && c in SegmentCells(p[k], p[k + 1])
  {
    if |p| >= 2 {
      var front := p[..|p| - 1];
      PathCellsMeaning(front, c);
      assert forall k :: 0 <= k < |front| ==> front[k] == p[k];
    }
  }

  function RockCells(paths: seq<seq<Coord>>): set<Coord>
  {
    if paths == [] then {} else RockCells(paths[..|paths| - 1]) + PathCells(paths[|paths| - 1])
  }

  /** The cave map holding exactly the given rock cells. */
  function RockMap(cells: set<Coord>): map<Coord, char>
  {
    map c | c in cells :: '#'
  }

  /** The points of a sequence of points. */
  function Points(q: seq<Coord>): set<Coord>
  {
    set c | c in q
  }

  /** The points of every path that has at least one segment. */
  function Endpoints(paths: seq<seq<Coord>>): set<Coord>
  {
    if paths == [] then {}
    else
      var p := paths[|paths| - 1];
      Endpoints(paths[..|paths| - 1]) + (if |p| >= 2 then Points(p) else {})
  }

  // ------------------------------------------------------------------- bounds

  /** `o` is the least x among `cs`, or `None` when `cs` is empty. */
  ghost predicate IsXMin(o: Option<int>, cs: set<Coord>)
  {
    (o.None? <==> cs == {})
    && (o.Some? ==> (forall c :: c in cs ==> o.value <= c.x) && exists c :: c in cs && c.x == o.value)
  }

  ghost predicate IsXMax(o: Option<int>, cs: set<Coord>)
  {
    (o.None? <==> cs == {})
    && (o.Some? ==> (forall c :: c in cs ==> c.x <= o.value) && exists c :: c in cs && c.x == o.value)
  }

  ghost predicate IsYMax(o: Option<int>, cs: set<Coord>)
  {
    (o.None? <==> cs == {})
    && (o.Some? ==> (forall c :: c in cs ==> c.y <= o.value) && exists c :: c in cs && c.y == o.value)
  }

  /** The running `xmin`, `xmax`, `ymax` of the constructor. */
  datatype Bounds = Bounds(xmin: Option<int>, xmax: Option<int>, ymax: Option<int>)

  ghost predicate BoundsOver(b: Bounds, cs: set<Coord>)
  {
    IsXMin(b.xmin, cs) && IsXMax(b.xmax, cs) && IsYMax(b.ymax, cs)
  }

  /** The bounds after seeing the segment from `a` to `c`. */
  function Widen(b: Bounds, a: Coord, c: Coord): Bounds
  {
    Bounds(
      Some(if b.xmin.None? then Min(a.x, c.x) else Min(Min(a.x, c.x), b.xmin.value)),
      Some(if b.xmax.None? then Max(a.x, c.x) else Max(Max(a.x, c.x), b.xmax.value)),
      Some(if b.ymax.None? then Max(a.y, c.y) else Max(Max(a.y, c.y), b.ymax.value)))
  }

  /** The widened bounds are the bounds over the points seen so far and the two new ones. */
  lemma WidenBounds(b: Bounds, cs: set<Coord>, a: Coord, c: Coord)
    requires BoundsOver(b, cs)
    ensures BoundsOver(Widen(b, a, c), cs + {a, c})
  {
  }

  /** Marks one segment, cell by cell. */
  method DrawSegment(state: map<Coord, char>, ghost cells: set<Coord>, a: Coord, b: Coord)
    returns (s: map<Coord, char>)
    requires state == RockMap(cells)
    ensures s == RockMap(cells + SegmentCells(a, b))
  {
    s := state;
    if a.x == b.x {
      var lo, hi := Min(a.y, b.y), Max(a.y, b.y);
      for y := lo to hi + 1
        invariant s == RockMap(cells + set y' | lo <= y' < y :: Coord(a.x, y'))
      {
        assert (set y' | lo <= y' < y + 1 :: Coord(a.x, y'))
            == (set y' | lo <= y' < y :: Coord(a.x, y')) + {Coord(a.x, y)};
        s := s[Coord(a.x, y) := '#'];
      }
      assert (set y' | lo <= y' < hi + 1 :: Coord(a.x, y')) == SegmentCells(a, b);
    } else if a.y == b.y {
      var lo, hi := Min(a.x, b.x), Max(a.x, b.x);
      for x := lo to hi + 1
        invariant s == RockMap(cells + set x' | lo <= x' < x :: Coord(x', a.y))
      {
        assert (set x' | lo <= x' < x + 1 :: Coord(x', a.y))
            == (set x' | lo <= x' < x :: Coord(x', a.y)) + {Coord(x, a.y)};
        s := s[Coord(x, a.y) := '#'];
      }
      assert (set x' | lo <= x' < hi + 1 :: Coord(x', a.y)) == SegmentCells(a, b);
    } else {
      assert cells + SegmentCells(a, b) == cells;
    }
  }

  /** Draws every segment of one path and widens the bounds over its points. */
  method DrawPath(state: map<Coord, char>, bounds: Bounds, ghost cells: set<Coord>, ghost seen: set<Coord>, p: seq<Coord>)
    returns (s: map<Coord, char>, b: Bounds)
    requires state == RockMap(cells) && BoundsOver(bounds, seen)
    ensures s == RockMap(cells + PathCells(p))
    ensures BoundsOver(b, seen + (if |p| >= 2 then Points(p) else {}))
  {
    if |p| < 2 {
      assert seen + {} == seen && cells + PathCells(p) == cells;
      return state, bounds;
    }
    s, b := DrawSegments(state, bounds, cells, seen, p);
  }

  /** The bounds after every segment of a path, in order. */
  function PathBounds(b: Bounds, q: seq<Coord>): Bounds
  {
    if |q| < 2 then b else Widen(PathBounds(b, q[..|q| - 1]), q[|q| - 2], q[|q| - 1])
  }

  /** Folding `Widen` over a path gives the bounds over all its points. */
  lemma {:induction false} PathBoundsOver(b: Bounds, seen: set<Coord>, q: seq<Coord>)
    requires |q| >= 2 && BoundsOver(b, seen)
    ensures BoundsOver(PathBounds(b, q), seen + Points(q))
  {
    var front := q[..|q| - 1];
    assert front[|front| - 1] == q[|q| - 2];
    if |q| == 2 {
      assert PathBounds(b, front) == b;
      assert Points(q) == {q[0], q[1]};
      WidenBounds(b, seen, q[0], q[1]);
    } else {
      PathBoundsOver(b, seen, front);
      assert q[|q| - 2] in Points(front);
      assert (seen + Points(front)) + {q[|q| - 2], q[|q| - 1]} == seen + Points(q);
      WidenBounds(PathBounds(b, front), seen + Points(front), q[|q| - 2], q[|q| - 1]);
    }
  }

  /** The segment loop of a path with at least one segment. */
  method DrawSegments(state: map<Coord, char>, bounds: Bounds, ghost cells: set<Coord>, ghost seen: set<Coord>, p: seq<Coord>)
    returns (s: map<Coord, char>, b: Bounds)
    requires |p| >= 2
    requires state == RockMap(cells) && BoundsOver(bounds, seen)
    ensures s == RockMap(cells + PathCells(p))
    ensures BoundsOver(b, seen + Points(p))
  {
    s, b := state, bounds;
    var k := 0;
    while k < |p| - 1
      invariant 0 <= k <= |p| - 1
      invariant s == RockMap(cells + PathCells(p[..k + 1]))
      invariant b == PathBounds(bounds, p[..k + 1])
    {
      PathStep(bounds, p, k);
      s := DrawSegment(s, cells + PathCells(p[..k + 1]), p[k], p[k + 1]);
      b := Widen(b, p[k], p[k + 1]);
      k := k + 1;
    }
    assert p[..k + 1] == p;
    PathBoundsOver(bounds, seen, p);
  }

  /** What one more segment adds to a path prefix: its cells, and its far end. */
  lemma PathStep(b: Bounds, p: seq<Coord>, k: nat)
    requires k + 1 < |p|
    ensures PathCells(p[..k + 2]) == PathCells(p[..k + 1]) + SegmentCells(p[k], p[k + 1])
    ensures PathBounds(b, p[..k + 2]) == Widen(PathBounds(b, p[..k + 1]), p[k], p[k + 1])
  {
    var q := p[..k + 2];
    assert q[..|q| - 1] == p[..k + 1] && q[|q| - 2] == p[k] && q[|q| - 1] == p[k + 1];
  }

  /** The constructor's loop over the scans, on local state. */
  method DrawRocks(paths: seq<seq<Coord>>) returns (s: map<Coord, char>, b: Bounds)
    ensures s == RockMap(RockCells(paths))
    ensures BoundsOver(b, Endpoints(paths))
  {
    s, b := map[], Bounds(None, None, None);
    for i := 0 to |paths|
      invariant s == RockMap(RockCells(paths[..i]))
      invariant BoundsOver(b, Endpoints(paths[..i]))
    {
      var front := paths[..i + 1];
      assert front[..i] == paths[..i] && front[i] == paths[i];
      s, b := DrawPath(s, b, RockCells(paths[..i]), Endpoints(paths[..i]), paths[i]);
    }
    assert paths[..|paths|] == paths;
  }

  // -------------------------------------------------------------------- falls

  /** A defaultdict read: a missing key is air. */
  function Get(m: map<Coord, char>, c: Coord): char
  {
    if c in m then m[c] else '.'
  }

  /** The three cells below `p` are all taken. */
  predicate Blocked(m: map<Coord, char>, p: Coord)
  {
    Get(m, Coord(p.x, p.y + 1)) != '.'
    && Get(m, Coord(p.x - 1, p.y + 1)) != '.'
    && Get(m, Coord(p.x + 1, p.y + 1)) != '.'
  }

  /**
   * Where a grain starting at `p` comes to rest: it falls down, else
   * down-left, else down-right, and stops when all three are taken or when
   * it reaches the row just below the lowest rock.
   */
  function Rest(m: map<Coord, char>, p: Coord, ymax: int): (r: Coord)
    requires p.y <= ymax + 1
    ensures p.y <= r.y <= ymax + 1
    ensures r.y == ymax + 1 || Blocked(m, r)
    ensures Get(m, p) == '.' ==> Get(m, r) == '.'
    decreases ymax + 1 - p.y
  {
    if p.y == ymax + 1 then p
    else if Get(m, Coord(p.x, p.y + 1)) == '.' then Rest(m, Coord(p.x, p.y + 1), ymax)
    else if Get(m, Coord(p.x - 1, p.y + 1)) == '.' then Rest(m, Coord(p.x - 1, p.y + 1), ymax)
    else if Get(m, Coord(p.x + 1, p.y + 1)) == '.' then Rest(m, Coord(p.x + 1, p.y + 1), ymax)
    else p
  }

  /** Whether a drop now places a grain. */
  predicate Places(m: map<Coord, char>, ymax: int, void: bool)
    requires ymax >= -1
  {
    Rest(m, Source, ymax).y < ymax || !void
  }


  /** The parts of the cave a drop changes: the cells and the x bounds. */
  datatype Pile = Pile(cells: map<Coord, char>, xmin: int, xmax: int)

  /** One drop: a kept grain turns its resting cell to sand and widens the x bounds to it. */
  function Drop(p: Pile, ymax: int, void: bool): Pile
    requires ymax >= -1
  {
    var rest := Rest(p.cells, Source, ymax);
    if Places(p.cells, ymax, void) then Pile(p.cells[rest := 'o'], Min(p.xmin, rest.x), Max(p.xmax, rest.x)) else p
  }

  /** `k` drops that each keep their grain, one after the other. */
  function Drops(p: Pile, ymax: int, void: bool, k: nat): Pile
    requires ymax >= -1
  {
    if k == 0 then p else Drop(Drops(p, ymax, void, k - 1), ymax, void)
  }

  /** The cells holding sand. */
  function Sand(m: map<Coord, char>): set<Coord>
  {
    set c | c in m.Keys && m[c] == 'o'
  }

  /**
   * While the source is open, each kept grain lands on air: there is one
   * more sand cell, and the source is still open only if the grain did not
   * land on it.
   */
  lemma DropFillsAir(p: Pile, ymax: int, void: bool)
    requires ymax >= -1 && Get(p.cells, Source) == '.' && Places(p.cells, ymax, void)
    ensures |Sand(Drop(p, ymax, void).cells)| == |Sand(p.cells)| + 1
  {
    var rest := Rest(p.cells, Source, ymax);
    assert Get(p.cells, rest) == '.';
    assert rest !in Sand(p.cells);
    assert Sand(p.cells[rest := 'o']) == Sand(p.cells) + {rest};
  }

  /** Once the source holds something, it keeps holding it. */
  lemma SourceStaysCovered(p: Pile, ymax: int, void: bool)
    requires ymax >= -1 && Get(p.cells, Source) != '.'
    ensures Get(Drop(p, ymax, void).cells, Source) != '.'
  {
  }

  /**
   * Without a floor, once sand covers the source and rests there above the
   * lowest rock, every drop puts one more grain on the source cell: the
   * count goes up while the cave stays as it is, so the fill never sees two
   * equal counts.
   */
  lemma VoidSourceCovered(p: Pile, ymax: int)
    requires ymax > 0 && Get(p.cells, Source) == 'o' && Blocked(p.cells, Source)
    requires Min(p.xmin, Source.x) == p.xmin && Max(p.xmax, Source.x) == p.xmax
    ensures Places(p.cells, ymax, true) && Drop(p, ymax, true) == p
  {
    assert Source in p.cells;
    assert p.cells[Source := 'o'] == p.cells;
  }

  class Cave {
    var caveState: map<Coord, char>
    var xmin: Option<int>
    var xmax: Option<int>
    var ymax: Option<int>
    var sandGrains: nat

    /** The three bounds are set together, by the first segment. */
    ghost predicate Valid()
      reads this
    {
      xmin.Some? == ymax.Some? && xmax.Some? == ymax.Some?
    }

    /** The cells and the x bounds, once there is rock. */
    ghost function PileOf(): Pile
      reads this
      requires Valid() && ymax.Some?
    {
      Pile(caveState, xmin.value, xmax.value)
    }

    /** `Cave(scans)` once the scans are read into paths. */
    constructor(paths: seq<seq<Coord>>)
      ensures Valid()
      ensures caveState == RockMap(RockCells(paths))
      ensures IsXMin(xmin, Endpoints(paths)) && IsXMax(xmax, Endpoints(paths)) && IsYMax(ymax, Endpoints(paths))
      ensures sandGrains == 0
    {
      var s, b := DrawRocks(paths);
      caveState := s;
      xmin, xmax, ymax := b.xmin, b.xmax, b.ymax;
      sandGrains := 0;
    }

    /**
     * One grain. With no rock at all the bound is `None` and the first
     * comparison fails. Otherwise the grain rests where `Rest` says; it is
     * kept when it rests above the lowest rock row, or always when the
     * floor is in place, and then that one cell becomes 'o', the x bounds
     * widen to it and one grain is counted. Nothing else changes.
     */
    method SandDrop(void: bool) returns (r: Result<bool>)
      requires Valid() && (ymax.Some? ==> ymax.value >= -1)
      modifies this
      ensures Valid() && ymax == old(ymax)
      ensures old(ymax).None? ==> r == Err(TypeError) && unchanged(this)
      ensures old(ymax).Some? ==>
                var rest := Rest(old(caveState), Source, old(ymax).value);
                r == Ok(Places(old(caveState), old(ymax).value, void))
                && (r.value ==>
                      caveState == old(caveState)[rest := 'o']
                      && xmax == Some(Max(old(xmax).value, rest.x))
                      && xmin == Some(Min(old(xmin).value, rest.x))
                      && sandGrains == old(sandGrains) + 1)
                && (!r.value ==>
                      caveState == old(caveState) && xmin == old(xmin) && xmax == old(xmax)
                      && sandGrains == old(sandGrains))
    {
      if ymax.None? {
        return Err(TypeError);
      }
      var cells, bottom := caveState, ymax.value;
      var pos := Source;
      var falling := true;
      while falling
        invariant pos.y <= bottom + 1
        invariant falling ==> Rest(cells, pos, bottom) == Rest(cells, Source, bottom)
        invariant !falling ==> pos == Rest(cells, Source, bottom)
        decreases bottom + 1 - pos.y, falling
      {
        if pos.y == bottom + 1 {
          falling := false;
        } else if Get(cells, Coord(pos.x, pos.y + 1)) == '.' {
          pos := Coord(pos.x, pos.y + 1);
        } else if Get(cells, Coord(pos.x - 1, pos.y + 1)) == '.' {
          pos := Coord(pos.x - 1, pos.y + 1);
        } else if Get(cells, Coord(pos.x + 1, pos.y + 1)) == '.' {
          pos := Coord(pos.x + 1, pos.y + 1);
        } else {
          falling := false;
        }
      }
      if pos.y < bottom || !void {
        caveState := caveState[pos := 'o'];
        xmax := Some(Max(xmax.value, pos.x));
        xmin := Some(Min(xmin.value, pos.x));
        sandGrains := sandGrains + 1;
        return Ok(true);
      }
      return Ok(false);
    }

    /**
     * `fill_with_sand_void`: drops grains into the abyss until a drop adds
     * none (counted against a local tally that starts at 0). The cave is then
     * the one the kept grains make, one `Drop` each, and a further drop
     * would place nothing; while the source is open, every counted grain is
     * one more sand cell. At most `fuel` drops.
     */
    method FillWithSandVoid(fuel: nat) returns (outcome: Outcome<()>)
      requires Valid() && (ymax.Some? ==> ymax.value >= -1)
      modifies this
      ensures Valid() && ymax == old(ymax) && sandGrains >= old(sandGrains)
      ensures outcome.Failed? ==> outcome.error == TypeError && old(ymax).None?
      ensures old(ymax).None? && fuel > 0 ==> outcome == Failed(TypeError)
      ensures old(ymax).Some? ==> PileOf() == Drops(old(PileOf()), ymax.value, true, sandGrains - old(sandGrains))
      ensures old(ymax).Some? && Get(caveState, Source) == '.' ==>
                |Sand(caveState)| == |Sand(old(caveState))| + (sandGrains - old(sandGrains))
      ensures outcome == Done(()) ==> ymax.Some? && !Places(caveState, ymax.value, true)
    {
      var full := false;
      var grains := 0;
      var f: nat := fuel;
      while !full
        invariant Valid() && ymax == old(ymax) && sandGrains >= old(sandGrains)
        invariant f < fuel ==> ymax.Some?
        invariant grains == sandGrains || grains == 0
        invariant ymax.Some? ==> PileOf() == Drops(old(PileOf()), ymax.value, true, sandGrains - old(sandGrains))
        invariant ymax.Some? && Get(caveState, Source) == '.' ==>
                    |Sand(caveState)| == |Sand(old(caveState))| + (sandGrains - old(sandGrains))
        invariant full ==> ymax.Some? && !Places(caveState, ymax.value, true)
        decreases f
      {
        if f == 0 {
          return OutOfFuel;
        }
        f := f - 1;
        ghost var before := if ymax.Some? then PileOf() else Pile(map[], 0, 0);
        var r := SandDrop(true);
        if r.Err? {
          return Failed(r.error);
        }
        KeptDrop(before, ymax.value, true);
        if Get(before.cells, Source) != '.' {
          SourceStaysCovered(before, ymax.value, true);
        } else if r.value {
          DropFillsAir(before, ymax.value, true);
        }
        full := sandGrains == grains;
        grains := sandGrains;
      }
      return Done(());
    }

    /**
     * `fill_with_sand_floor`: drops grains onto the floor until (500, 0)
     * is taken. Every drop keeps its grain on an air cell: the cave is the
     * one those grains make, one `Drop` each, and there are exactly as many
     * new sand cells as grains. At most `fuel` drops.
     */
    method FillWithSandFloor(fuel: nat) returns (outcome: Outcome<()>)
      requires Valid() && (ymax.Some? ==> ymax.value >= -1)
      modifies this
      ensures Valid() && ymax == old(ymax) && sandGrains >= old(sandGrains)
      ensures outcome.Failed? ==> outcome.error == TypeError && old(ymax).None?
      ensures old(ymax).None? && Get(old(caveState), Source) == '.' && fuel > 0 ==> outcome == Failed(TypeError)
      ensures old(ymax).None? && Get(old(caveState), Source) != '.' ==> outcome == Done(()) && unchanged(this)
      ensures old(ymax).Some? ==> PileOf() == Drops(old(PileOf()), ymax.value, false, sandGrains - old(sandGrains))
      ensures |Sand(caveState)| == |Sand(old(caveState))| + (sandGrains - old(sandGrains))
      ensures outcome == Done(()) ==> Get(caveState, Source) != '.'
    {
      var f: nat := fuel;
      while Get(caveState, Source) == '.'
        invariant Valid() && ymax == old(ymax) && sandGrains >= old(sandGrains)
        invariant f <= fuel && (f == fuel ==> unchanged(this))
        invariant old(ymax).None? ==> f == fuel
        invariant ymax.Some? ==> PileOf() == Drops(old(PileOf()), ymax.value, false, sandGrains - old(sandGrains))
        invariant |Sand(caveState)| == |Sand(old(caveState))| + (sandGrains - old(sandGrains))
        decreases f
      {
        if f == 0 {
          return OutOfFuel;
        }
        f := f - 1;
        ghost var before := if ymax.Some? then PileOf() else Pile(map[], 0, 0);
        var r := SandDrop(false);
        if r.Err? {
          return Failed(r.error);
        }
        KeptDrop(before, ymax.value, false);
        FloorDropFillsAir(before.cells, ymax.value);
        DropFillsAir(before, ymax.value, false);
      }
      return Done(());
    }
  }

  /** A drop that keeps its grain is the next `Drop`; one that does not leaves the pile as it is. */
  lemma KeptDrop(p: Pile, ymax: int, void: bool)
    requires ymax >= -1
    ensures var rest := Rest(p.cells, Source, ymax);
            Places(p.cells, ymax, void) ==> Drop(p, ymax, void) == Pile(p.cells[rest := 'o'], Min(p.xmin, rest.x), Max(p.xmax, rest.x))
    ensures !Places(p.cells, ymax, void) ==> Drop(p, ymax, void) == p
  {
  }

  /** In floor mode every drop from an open source fills an air cell, so the cave strictly fills up. */
  lemma FloorDropFillsAir(m: map<Coord, char>, ymax: int)
    requires ymax >= -1 && Get(m, Source) == '.'
    ensures Places(m, ymax, false)
    ensures Get(m, Rest(m, Source, ymax)) == '.'
    ensures Get(m[Rest(m, Source, ymax) := 'o'], Rest(m, Source, ymax)) == 'o'
  {
  }

  /** `Cave(scans)`: reads the scans, failing as the conversions do, then draws the rocks. */
  method NewCave(scans: seq<string>) returns (r: Result<Cave>)
    ensures ParseScans(scans).Err? ==> r == Err(ValueError)
    ensures ParseScans(scans).Ok? ==>
              r.Ok? && fresh(r.value) && r.value.Valid()
              && r.value.caveState == RockMap(RockCells(ParseScans(scans).value))
              && r.value.sandGrains == 0
  {
    ParseScansShape(scans);
    var parsed := ParseScans(scans);
    if parsed.Err? {
      return Err(ValueError);
    }
    var cave := new Cave(parsed.value);
    return Ok(cave);
  }
}
