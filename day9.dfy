/** A two-knot rope: the head follows the motions, the tail follows the head. */
module Day9 {
  import opened Wrappers
  import opened PyOps
  import opened Text

  datatype Coord = Coord(x: int, y: int)

  /** The head and the tail of the rope. */
  datatype Rope = Rope(head: Coord, tail: Coord)

  /** The sign of `i`, computed as Python's `i // abs(i)`. */
  function Signum(i: int): (r: int)
    ensures r == -1 || r == 0 || r == 1
    ensures r > 0 <==> i > 0
    ensures r < 0 <==> i < 0
  {
    if i != 0 then FloorDiv(i, Abs(i)) else 0
  }

  /** The Chebyshev (L-infinity) distance. */
  function Chebyshev(c1: Coord, c2: Coord): nat
  {
    Max(Abs(c1.x - c2.x), Abs(c1.y - c2.y))
  }

  /** The knots are on the same cell or on neighbouring cells, diagonals included. */
  function CoordsTouching(c1: Coord, c2: Coord): (b: bool)
    ensures b <==> -1 <= c1.x - c2.x <= 1 && -1 <= c1.y - c2.y <= 1
  {
    Max(Abs(c1.x - c2.x), Abs(c1.y - c2.y)) <= 1
  }

  /** A move of at most one cell along each axis. */
  predicate IsUnit(u: Coord)
  {
    -1 <= u.x <= 1 && -1 <= u.y <= 1
  }

  /**
   * Moves the head by `u`; a tail left out of touch steps one cell along
   * each axis on which it differs from the head, toward it.
   */
  function UpdateCoords(r: Rope, u: Coord): (next: Rope)
    ensures next.head == Coord(r.head.x + u.x, r.head.y + u.y)
    ensures CoordsTouching(next.head, r.tail) ==> next.tail == r.tail
    ensures !CoordsTouching(next.head, r.tail) ==>
      IsUnit(Coord(next.tail.x - r.tail.x, next.tail.y - r.tail.y))
      && Chebyshev(next.head, next.tail) == Chebyshev(next.head, r.tail) - 1
      && Abs(next.head.x - next.tail.x) <= Abs(next.head.x - r.tail.x)
      && Abs(next.head.y - next.tail.y) <= Abs(next.head.y - r.tail.y)
  {
    var h := Coord(r.head.x + u.x, r.head.y + u.y);
    if CoordsTouching(h, r.tail) then Rope(h, r.tail)
    else Rope(h, Coord(r.tail.x + Signum(h.x - r.tail.x), r.tail.y + Signum(h.y - r.tail.y)))
  }

  /** A touching rope stays touching whichever unit move the head makes. */
  lemma StepKeepsTouching(r: Rope, u: Coord)
    requires CoordsTouching(r.head, r.tail) && IsUnit(u)
    ensures CoordsTouching(UpdateCoords(r, u).head, UpdateCoords(r, u).tail)
  {
  }

  // --------------------------------------------------------------- motions

  /** The unit move of a direction letter; none for any other word. */
  function Direction(w: string): Option<Coord>
  {
    if w == "R" then Some(Coord(1, 0))
    else if w == "L" then Some(Coord(-1, 0))
    else if w == "U" then Some(Coord(0, 1))
    else if w == "D" then Some(Coord(0, -1))
    else None
  }

  /**
   * The unit moves of one motion line "<dir> <steps>"; a line of any other
   * shape moves nothing, and a step count that is not an integer fails.
   */
  function MotionMoves(line: string): (r: Result<seq<Coord>>)
    ensures r.Ok? ==> forall k :: 0 <= k < |r.value| ==> IsUnit(r.value[k])
  {
    var ws := Words(line);
    if |ws| == 2 && Direction(ws[0]).Some? then
      match ParseInt(ws[1])
      case None => Err(ValueError)
      case Some(n) => Ok(Steps(Direction(ws[0]).value, Max(n, 0)))
    else Ok([])
  }

  /** The moves of all the lines in order; the first bad step count fails the whole run. */
  function AllMoves(lines: seq<string>): (r: Result<seq<Coord>>)
    ensures r.Ok? ==> forall k :: 0 <= k < |r.value| ==> IsUnit(r.value[k])
  {
    if lines == [] then Ok([])
    else
      match AllMoves(lines[..|lines| - 1])
      case Err(e) => Err(e)
      case Ok(a) =>
        match MotionMoves(lines[|lines| - 1])
        case Err(e) => Err(e)
        case Ok(b) => Ok(a + b)
  }

  /** A failure on some line fails every longer run of lines. */
  lemma {:induction false} AllMovesFailsOnward(lines: seq<string>, i: nat)
    requires i <= |lines| && AllMoves(lines[..i]).Err?
    ensures AllMoves(lines) == Err(ValueError)
    decreases |lines|
  {
    if i == |lines| {
      assert lines[..i] == lines;
      AllMovesErrorIsValueError(lines);
    } else {
      var front := lines[..|lines| - 1];
      assert front[..i] == lines[..i];
      AllMovesFailsOnward(front, i);
    }
  }

  lemma {:induction false} AllMovesErrorIsValueError(lines: seq<string>)
    ensures AllMoves(lines).Err? ==> AllMoves(lines).error == ValueError
  {
    if lines != [] {
      AllMovesErrorIsValueError(lines[..|lines| - 1]);
    }
  }

  /** The rope after the given moves. */
  function Final(start: Rope, moves: seq<Coord>): Rope
  {
    if moves == [] then start else UpdateCoords(Final(start, moves[..|moves| - 1]), moves[|moves| - 1])
  }

  /** The tail positions after each move, in order. */
  function TailTrace(start: Rope, moves: seq<Coord>): (t: seq<Coord>)
    ensures |t| == |moves|
  {
    if moves == [] then [] else TailTrace(start, moves[..|moves| - 1]) + [Final(start, moves).tail]
  }

  /** How many times each cell occurs in `cs`. */
  function VisitCounts(cs: seq<Coord>): map<Coord, nat>
  {
    if cs == [] then map[]
    else
      var m := VisitCounts(cs[..|cs| - 1]);
      var c := cs[|cs| - 1];
      m[c := (if c in m then m[c] else 0) + 1]
  }

  /** The map's keys are exactly the cells visited, each counted as often as it occurs. */
  lemma {:induction false} VisitCountsMeaning(cs: seq<Coord>)
    ensures forall c :: c in VisitCounts(cs) <==> c in cs
    ensures forall c :: c in VisitCounts(cs) ==> VisitCounts(cs)[c] == multiset(cs)[c]
  {
    if cs != [] {
      var front := cs[..|cs| - 1];
      assert cs == front + [cs[|cs| - 1]];
      VisitCountsMeaning(front);
    }
  }

  /** Starting in touch, the tail touches the head after every unit move. */
  lemma {:induction false} TraceTouching(start: Rope, moves: seq<Coord>)
    requires CoordsTouching(start.head, start.tail)
    requires forall k :: 0 <= k < |moves| ==> IsUnit(moves[k])
    ensures CoordsTouching(Final(start, moves).head, Final(start, moves).tail)
  {
    if moves != [] {
      TraceTouching(start, moves[..|moves| - 1]);
      StepKeepsTouching(Final(start, moves[..|moves| - 1]), moves[|moves| - 1]);
    }
  }

  /** The tail moves at most one cell along each axis per move. */
  lemma TailStepsAreUnits(start: Rope, moves: seq<Coord>)
    requires moves != []
    ensures var before := Final(start, moves[..|moves| - 1]).tail;
            var after := Final(start, moves).tail;
            IsUnit(Coord(after.x - before.x, after.y - before.y))
  {
  }

  const Origin := Rope(Coord(0, 0), Coord(0, 0))

  /** The visits recorded after the given moves from the origin. */
  function Visits(moves: seq<Coord>): map<Coord, nat>
  {
    VisitCounts([Coord(0, 0)] + TailTrace(Origin, moves))
  }

  lemma VisitsStep(moves: seq<Coord>, u: Coord)
    ensures Final(Origin, moves + [u]) == UpdateCoords(Final(Origin, moves), u)
    ensures var t := Final(Origin, moves + [u]).tail;
            var m := Visits(moves);
            Visits(moves + [u]) == m[t := (if t in m then m[t] else 0) + 1]
  {
    var next := moves + [u];
    assert next[..|next| - 1] == moves;
    var s := [Coord(0, 0)] + TailTrace(Origin, next);
    assert s[..|s| - 1] == [Coord(0, 0)] + TailTrace(Origin, moves);
  }

  /** `n` unit moves by `u`. */
  function Steps(u: Coord, n: nat): (r: seq<Coord>)
    ensures |r| == n && forall i :: 0 <= i < n ==> r[i] == u
  {
    if n == 0 then [] else Steps(u, n - 1) + [u]
  }

  /** The `for _ in range(steps)` loop: `n` moves by `u`, counting each tail position. */
  method Repeat(cur: Rope, counts: map<Coord, nat>, u: Coord, n: nat, ghost before: seq<Coord>)
    returns (next: Rope, counts': map<Coord, nat>)
    requires cur == Final(Origin, before) && counts == Visits(before)
    ensures next == Final(Origin, before + Steps(u, n))
    ensures counts' == Visits(before + Steps(u, n))
  {
    next, counts' := cur, counts;
    ghost var done := before;
    assert before + Steps(u, 0) == before;
    for k := 0 to n
      invariant done == before + Steps(u, k)
      invariant next == Final(Origin, done) && counts' == Visits(done)
    {
      VisitsStep(done, u);
      next := UpdateCoords(next, u);
      var t := next.tail;
      counts' := counts'[t := (if t in counts' then counts'[t] else 0) + 1];
      done := done + [u];
      StepsSnoc(before, u, k);
    }
  }

  lemma StepsSnoc(before: seq<Coord>, u: Coord, k: nat)
    ensures before + Steps(u, k + 1) == (before + Steps(u, k)) + [u]
  {
  }

  /** One line of the outer loop: the matched motion, or nothing for a line of another shape. */
  method ApplyMotion(cur: Rope, counts: map<Coord, nat>, line: string, ghost before: seq<Coord>)
    returns (ok: bool, next: Rope, counts': map<Coord, nat>)
    requires cur == Final(Origin, before) && counts == Visits(before)
    ensures ok <==> MotionMoves(line).Ok?
    ensures ok ==> next == Final(Origin, before + MotionMoves(line).value)
    ensures ok ==> counts' == Visits(before + MotionMoves(line).value)
  {
    var ws := Words(line);
    if |ws| == 2 && Direction(ws[0]).Some? {
      var steps := ParseInt(ws[1]);
      if steps.None? {
        return false, cur, counts;
      }
      ok := true;
      next, counts' := Repeat(cur, counts, Direction(ws[0]).value, Max(steps.value, 0), before);
    } else {
      assert before + [] == before;
      return true, cur, counts;
    }
  }

  /**
   * `simulate_motion`: the visit count of the origin and of the tail's
   * position after every unit move.
   */
  method SimulateMotion(lines: seq<string>) returns (r: Result<map<Coord, nat>>)
    ensures AllMoves(lines).Err? ==> r == Err(ValueError)
    ensures AllMoves(lines).Ok? ==> r == Ok(VisitCounts([Coord(0, 0)] + TailTrace(Origin, AllMoves(lines).value)))
  {
    var coordMap: map<Coord, nat> := map[Coord(0, 0) := 1];
    var cur := Origin;
    ghost var moves: seq<Coord> := [];
    assert [Coord(0, 0)] + TailTrace(Origin, moves) == [Coord(0, 0)];
    assert Visits(moves) == coordMap by {
      assert [Coord(0, 0)][..0] == [];
    }
    for i := 0 to |lines|
      invariant AllMoves(lines[..i]) == Ok(moves)
      invariant cur == Final(Origin, moves)
      invariant coordMap == Visits(moves)
    {
      assert lines[..i + 1][..i] == lines[..i];
      var ok;
      ok, cur, coordMap := ApplyMotion(cur, coordMap, lines[i], moves);
      if !ok {
        assert MotionMoves(lines[i]).Err?;
        AllMovesFailsOnward(lines, i + 1);
        return Err(ValueError);
      }
      moves := moves + MotionMoves(lines[i]).value;
    }
    assert lines[..|lines|] == lines;
    r := Ok(coordMap);
  }

  /**
   * The keys of the result are the origin and the tail's positions: the
   * number of distinct cells the tail visits.
   */
  lemma SimulationKeys(lines: seq<string>, c: Coord)
    requires AllMoves(lines).Ok?
    ensures c in VisitCounts([Coord(0, 0)] + TailTrace(Origin, AllMoves(lines).value))
        <==> c == Coord(0, 0) || c in TailTrace(Origin, AllMoves(lines).value)
  {
    VisitCountsMeaning([Coord(0, 0)] + TailTrace(Origin, AllMoves(lines).value));
  }
}
