/**
 * The hill-climbing map: a grid of heights, the neighbour relation of a
 * climb (at most one step up), and the relaxation loop that records the
 * distance of every cell reached from the start.
 */
module Day12 {
  import opened Wrappers

  /** A cell as (row, column). */
  type Node = (int, int)

  /** The height a map character stands for: `S` is 0, `E` is 25, `a`..`z` are 0..25. */
  function HeightOf(ch: char): (h: Option<int>)
    ensures h.Some? <==> ch == 'S' || ch == 'E' || 'a' <= ch <= 'z'
    ensures h.Some? ==> 0 <= h.value <= 25
  {
    if ch == 'S' then Some(0)
    else if ch == 'E' then Some(25)
    else if 'a' <= ch <= 'z' then Some(ch as int - 'a' as int)
    else None
  }

  ghost predicate Cell(rows: seq<string>, p: Node)
  {
    0 <= p.0 < |rows| && 0 <= p.1 < |rows[p.0]|
  }

  /** `q` comes after `p` in the row-major scan. */
  predicate After(q: Node, p: Node)
  {
    q.0 > p.0 || (q.0 == p.0 && q.1 > p.1)
  }

  /** `p` has been scanned once the scan stands at row `r`, column `c`. */
  ghost predicate Seen(rows: seq<string>, p: Node, r: int, c: int)
  {
    Cell(rows, p) && (p.0 < r || (p.0 == r && p.1 < c))
  }

  /** The heights of the scanned cells that carry one. */
  ghost predicate NodesSeen(rows: seq<string>, nodes: map<Node, int>, r: int, c: int)
  {
    (forall p :: p in nodes ==> Cell(rows, p) && HeightOf(rows[p.0][p.1]) == Some(nodes[p]))
    && (forall p :: Seen(rows, p, r, c) && HeightOf(rows[p.0][p.1]).Some? ==> p in nodes)
    && (forall p :: p in nodes ==> Seen(rows, p, r, c))
  }

  /**
   * `p` is where the scan last saw `ch`, or (0, 0) when it saw none: a
   * later occurrence overwrites an earlier one.
   */
  ghost predicate LastSeen(rows: seq<string>, ch: char, p: Node, r: int, c: int)
  {
    (Seen(rows, p, r, c) && rows[p.0][p.1] == ch
     && forall q :: Seen(rows, q, r, c) && rows[q.0][q.1] == ch ==> !After(q, p))
    || (p == (0, 0) && forall q :: Seen(rows, q, r, c) ==> rows[q.0][q.1] != ch)
  }

  /** The whole grid scanned. */
  lemma SeenAll(rows: seq<string>, p: Node)
    ensures Seen(rows, p, |rows|, 0) <==> Cell(rows, p)
  {
  }

  /** The constructor's scan of one row, continuing from the state after the rows above it. */
  method ScanRow(rows: seq<string>, r: nat, nodes0: map<Node, int>, start0: Node, end0: Node)
    returns (nodes: map<Node, int>, start: Node, end: Node)
    requires r < |rows|
    requires NodesSeen(rows, nodes0, r, 0)
    requires LastSeen(rows, 'S', start0, r, 0) && LastSeen(rows, 'E', end0, r, 0)
    ensures NodesSeen(rows, nodes, r + 1, 0)
    ensures LastSeen(rows, 'S', start, r + 1, 0) && LastSeen(rows, 'E', end, r + 1, 0)
  {
    nodes, start, end := nodes0, start0, end0;
    var row := rows[r];
    for c := 0 to |row|
      invariant NodesSeen(rows, nodes, r, c)
      invariant LastSeen(rows, 'S', start, r, c) && LastSeen(rows, 'E', end, r, c)
    {
      var ch := row[c];
      NodesStep(rows, r, c, nodes);
      LastStep(rows, 'S', r, c, start);
      LastStep(rows, 'E', r, c, end);
      if ch == 'S' {
        start := (r, c);
      } else if ch == 'E' {
        end := (r, c);
      }
      var h := HeightOf(ch);
      if h.Some? {
        nodes := nodes[(r, c) := h.value];
      }
    }
    RowEnd(rows, r, nodes, start, end);
  }

  lemma NodesStep(rows: seq<string>, r: nat, c: nat, nodes: map<Node, int>)
    requires Cell(rows, (r, c)) && NodesSeen(rows, nodes, r, c)
    ensures var h := HeightOf(rows[r][c]);
            NodesSeen(rows, if h.Some? then nodes[(r, c) := h.value] else nodes, r, c + 1)
  {
  }

  lemma LastStep(rows: seq<string>, ch: char, r: nat, c: nat, p: Node)
    requires Cell(rows, (r, c)) && LastSeen(rows, ch, p, r, c)
    ensures LastSeen(rows, ch, if rows[r][c] == ch then (r, c) else p, r, c + 1)
  {
  }

  lemma RowEnd(rows: seq<string>, r: nat, nodes: map<Node, int>, start: Node, end: Node)
    requires r < |rows|
    requires NodesSeen(rows, nodes, r, |rows[r]|)
    requires LastSeen(rows, 'S', start, r, |rows[r]|) && LastSeen(rows, 'E', end, r, |rows[r]|)
    ensures NodesSeen(rows, nodes, r + 1, 0)
    ensures LastSeen(rows, 'S', start, r + 1, 0) && LastSeen(rows, 'E', end, r + 1, 0)
  {
    assert forall p :: Seen(rows, p, r, |rows[r]|) <==> Seen(rows, p, r + 1, 0);
  }

  /**
   * The constructor's double loop: every cell with a height character is a
   * node with that height, and the start and end are the last `S` and `E`.
   */
  method ScanGrid(rows: seq<string>) returns (nodes: map<Node, int>, start: Node, end: Node)
    ensures forall p :: Cell(rows, p) && HeightOf(rows[p.0][p.1]).Some? ==> p in nodes
    ensures forall p :: p in nodes ==> Cell(rows, p) && HeightOf(rows[p.0][p.1]) == Some(nodes[p])
    ensures LastSeen(rows, 'S', start, |rows|, 0) && LastSeen(rows, 'E', end, |rows|, 0)
  {
    nodes, start, end := map[], (0, 0), (0, 0);
    for r := 0 to |rows|
      invariant NodesSeen(rows, nodes, r, 0)
      invariant LastSeen(rows, 'S', start, r, 0) && LastSeen(rows, 'E', end, r, 0)
    {
      nodes, start, end := ScanRow(rows, r, nodes, start, end);
    }
    forall p | Cell(rows, p) { SeenAll(rows, p); }
  }

  /** A priority-queue entry: a distance and a node, ordered as Python orders the tuple. */
  datatype Entry = Entry(d: int, node: Node)

  predicate EntryLess(a: Entry, b: Entry)
  {
    a.d < b.d || (a.d == b.d && After(b.node, a.node))
  }

  /** Where `PriorityQueue.get` takes its entry from: a least one. */
  function MinIndex(q: seq<Entry>): (i: nat)
    requires q != []
    ensures i < |q| && forall j :: 0 <= j < |q| ==> !EntryLess(q[j], q[i])
  {
    if |q| == 1 then 0
    else
      var k := MinIndex(q[..|q| - 1]);
      assert forall j :: 0 <= j < |q| - 1 ==> q[..|q| - 1][j] == q[j];
      if EntryLess(q[|q| - 1], q[k]) then |q| - 1 else k
  }

  class MountainGraph {
    const nodes: map<Node, int>
    const nrows: int
    const ncols: int
    const endNode: Node
    var startNode: Node
    /** The recorded distances; a node with none is at infinity. */
    var dist: map<Node, int>

    /** Reads the height map; `input_rows[0]` needs at least one row. */
    constructor(rows: seq<string>)
      requires rows != []
      ensures forall p :: Cell(rows, p) && HeightOf(rows[p.0][p.1]).Some? ==> p in nodes
      ensures forall p :: p in nodes ==> Cell(rows, p) && HeightOf(rows[p.0][p.1]) == Some(nodes[p])
      ensures LastSeen(rows, 'S', startNode, |rows|, 0) && LastSeen(rows, 'E', endNode, |rows|, 0)
      ensures nrows == |rows| && ncols == |rows[0]|
      ensures dist == map[startNode := 0] && Consistent()
    {
      var ns, s, e := ScanGrid(rows);
      nodes := ns;
      nrows := |rows|;
      ncols := |rows[0]|;
      startNode := s;
      endNode := e;
      dist := map[s := 0];
      new;
      ReachesStart(s);
    }

    /** `update_dist`: records one distance. */
    method UpdateDist(node: Node, newDist: int)
      modifies this
      ensures dist == old(dist)[node := newDist] && startNode == old(startNode)
    {
      dist := dist[node := newDist];
    }

    /** `update_start_node`: forgets every distance but the new start's 0. */
    method UpdateStartNode(newStart: Node)
      modifies this
      ensures dist == map[newStart := 0] && startNode == newStart && Consistent()
    {
      dist := map[newStart := 0];
      startNode := newStart;
      ReachesStart(newStart);
    }

    /** The cells `neighbors` looks at, in its order: up, left, down, right, where the bounds allow. */
    function Candidates(n: Node): (r: seq<Node>)
      ensures forall q :: q in r <==>
        ((q == (n.0 - 1, n.1) && 0 < n.0) || (q == (n.0, n.1 - 1) && 0 < n.1)
         || (q == (n.0 + 1, n.1) && nrows > 1 + n.0) || (q == (n.0, n.1 + 1) && ncols > 1 + n.1))
    {
      (if 0 < n.0 then [(n.0 - 1, n.1)] else [])
      + (if 0 < n.1 then [(n.0, n.1 - 1)] else [])
      + (if nrows > 1 + n.0 then [(n.0 + 1, n.1)] else [])
      + (if ncols > 1 + n.1 then [(n.0, n.1 + 1)] else [])
    }

    /** One move of a climb: to an adjacent cell in bounds, at most one higher. */
    ghost predicate Step(a: Node, b: Node)
    {
      b in Candidates(a) && a in nodes && b in nodes && nodes[b] <= nodes[a] + 1
    }

    /** The filter over the candidates; a candidate or the node itself without a height fails the lookup. */
    function KeepSteps(n: Node, cs: seq<Node>): (r: Result<seq<Node>>)
      ensures r.Err? <==> exists q :: q in cs && (q !in nodes || n !in nodes)
      ensures r.Err? ==> r.error == KeyError
      ensures r.Ok? ==> forall q :: q in r.value <==> q in cs && n in nodes && q in nodes && nodes[q] <= nodes[n] + 1
    {
      if cs == [] then Ok([])
      else
        var q := cs[|cs| - 1];
        assert forall x :: x in cs <==> x in cs[..|cs| - 1] || x == q;
        match KeepSteps(n, cs[..|cs| - 1])
        case Err(e) => Err(e)
        case Ok(acc) =>
          if q !in nodes || n !in nodes then Err(KeyError)
          else if nodes[q] <= nodes[n] + 1 then Ok(acc + [q])
          else Ok(acc)
    }

    /**
     * `neighbors`: exactly the cells one step of a climb reaches; a looked-up
     * cell without a height is a `KeyError`.
     */
    function Neighbors(n: Node): (r: Result<seq<Node>>)
      ensures r.Err? <==> exists q :: q in Candidates(n) && (q !in nodes || n !in nodes)
      ensures r.Err? ==> r.error == KeyError
      ensures r.Ok? ==> forall q :: q in r.value <==> Step(n, q)
    {
      KeepSteps(n, Candidates(n))
    }

    /** A step goes to an orthogonally adjacent cell inside the grid's bounds. */
    lemma StepAdjacent(a: Node, b: Node)
      requires Step(a, b)
      ensures (if a.0 < b.0 then b.0 - a.0 else a.0 - b.0) + (if a.1 < b.1 then b.1 - a.1 else a.1 - b.1) == 1
      ensures b != a && (b.0 < a.0 ==> 0 <= b.0) && (b.1 < a.1 ==> 0 <= b.1)
      ensures (b.0 > a.0 ==> b.0 < nrows) && (b.1 > a.1 ==> b.1 < ncols)
      ensures nodes[b] <= nodes[a] + 1
    {
    }

    /** `p` is a climb from `s` to `n` of `d` steps. */
    ghost predicate ClimbFrom(s: Node, p: seq<Node>, n: Node, d: int)
    {
      d >= 0 && |p| == d + 1 && p[0] == s && p[|p| - 1] == n
      && forall i :: 0 <= i < |p| - 1 ==> Step(p[i], p[i + 1])
    }

    ghost predicate Reaches(s: Node, n: Node, d: int)
    {
      exists p :: ClimbFrom(s, p, n, d)
    }

    lemma ReachesStart(s: Node)
      ensures Reaches(s, s, 0)
    {
      assert ClimbFrom(s, [s], s, 0);
    }

    /** A climb of `d` steps to `n` and one more step is a climb of `d + 1` steps. */
    lemma ExtendReach(s: Node, n: Node, d: int, m: Node)
      requires Reaches(s, n, d) && Step(n, m)
      ensures Reaches(s, m, d + 1)
    {
      var p :| ClimbFrom(s, p, n, d);
      var p' := p + [m];
      assert forall i :: 0 <= i < |p| ==> p'[i] == p[i];
      assert ClimbFrom(s, p', m, d + 1);
    }

    /** No step out of `n` can improve on `n`'s recorded distance. */
    ghost predicate Relaxed(ds: map<Node, int>, n: Node)
    {
      n in ds && forall m :: Step(n, m) ==> m in ds && ds[m] <= ds[n] + 1
    }

    /**
     * With the start at 0 and every recorded node relaxed, every climb from
     * the start ends at a recorded node no further than the climb's length.
     */
    lemma {:induction false} RelaxedBound(ds: map<Node, int>, s: Node, p: seq<Node>, n: Node, d: int)
      requires s in ds && ds[s] == 0 && forall x :: x in ds ==> Relaxed(ds, x)
      requires ClimbFrom(s, p, n, d)
      ensures n in ds && ds[n] <= d
      decreases |p|
    {
      if |p| > 1 {
        var p' := p[..|p| - 1];
        assert ClimbFrom(s, p', p'[|p'| - 1], d - 1);
        RelaxedBound(ds, s, p', p'[|p'| - 1], d - 1);
        assert Step(p[|p| - 2], n);
      }
    }
  
    /**
     * What the constructor, `update_start_node` and a finished climb leave:
     * the start at 0, every recorded distance the length of a climb from the
     * start, and every recorded node other than the start relaxed.
     */
    ghost predicate Consistent()
      reads this
    {
      startNode in dist && dist[startNode] == 0
      && forall n :: n in dist ==> Reaches(startNode, n, dist[n]) && (n == startNode || Relaxed(dist, n))
    }

    /** Every recorded distance is the length of a climb from `s`. */
    ghost predicate DistSound(ds: map<Node, int>, s: Node)
    {
      s in ds && ds[s] == 0 && forall n :: n in ds ==> Reaches(s, n, ds[n])
    }

    /** Every queued distance is the length of a climb from `s` to its node. */
    ghost predicate QueueSound(s: Node, q: seq<Entry>)
    {
      forall i :: 0 <= i < |q| ==> Reaches(s, q[i].node, q[i].d)
    }

    /** Every recorded node but `skip` is still queued with its distance or is relaxed. */
    ghost predicate Pending(ds: map<Node, int>, q: seq<Entry>, skip: Option<Node>)
    {
      forall n :: n in ds && Some(n) != skip ==> Entry(ds[n], n) in q || Relaxed(ds, n)
    }

    /** Lowering other nodes' distances keeps a node relaxed. */
    lemma RelaxedLowered(ds: map<Node, int>, ds': map<Node, int>, n: Node)
      requires Relaxed(ds, n) && n in ds' && ds'[n] == ds[n]
      requires forall x :: x in ds ==> x in ds' && ds'[x] <= ds[x]
      ensures Relaxed(ds', n)
    {
    }
  }

  /** Taking entry `i` off the queue leaves only its own node's obligation open. */
  lemma PopKeeps(m: MountainGraph, ds: map<Node, int>, s: Node, q: seq<Entry>, i: nat)
    requires i < |q| && m.QueueSound(s, q) && m.Pending(ds, q, None)
    ensures var c := q[i]; var q' := q[..i] + q[i + 1..];
            m.Reaches(s, c.node, c.d) && m.QueueSound(s, q') && m.Pending(ds, q', Some(c.node))
            && (c.node in ds && ds[c.node] != c.d ==> Entry(ds[c.node], c.node) in q' || m.Relaxed(ds, c.node))
  {
    var q' := q[..i] + q[i + 1..];
    assert forall e :: e in q && e != q[i] ==> e in q' by {
      forall e | e in q && e != q[i]
        ensures e in q'
      {
        var j :| 0 <= j < |q| && q[j] == e;
        if j < i { assert q'[j] == e; } else { assert q'[j - 1] == e; }
      }
    }
    assert forall j :: 0 <= j < |q'| ==> q'[j] == (if j < i then q[j] else q[j + 1]);
  }

  /** One pass of the inner loop: the neighbour's distance is lowered when the popped one improves it. */
  lemma RelaxStep(m: MountainGraph, ds: map<Node, int>, s: Node, q: seq<Entry>, c: Node, d: int, nb: Node)
    requires m.DistSound(ds, s) && m.QueueSound(s, q) && m.Pending(ds, q, Some(c))
    requires m.Reaches(s, c, d) && m.Step(c, nb)
    requires nb !in ds || d + 1 < ds[nb]
    ensures var ds' := ds[nb := d + 1]; var q' := q + [Entry(d + 1, nb)];
            m.DistSound(ds', s) && m.QueueSound(s, q') && m.Pending(ds', q', Some(c))
  {
    var ds' := ds[nb := d + 1];
    var q' := q + [Entry(d + 1, nb)];
    m.ExtendReach(s, c, d, nb);
    var p :| m.ClimbFrom(s, p, c, d);
    assert d >= 0;
    forall n | n in ds' && Some(n) != Some(c)
      ensures Entry(ds'[n], n) in q' || m.Relaxed(ds', n)
    {
      if n == nb {
        assert q'[|q|] == Entry(ds'[n], n);
      } else if Entry(ds[n], n) in q {
        assert Entry(ds'[n], n) in q';
      } else {
        m.RelaxedLowered(ds, ds', n);
      }
    }
    assert forall i :: 0 <= i < |q| ==> q'[i] == q[i];
  }

  /** The inner loop's body for one neighbour `nb` of the popped node `c`. */
  method RelaxOne(m: MountainGraph, c: Node, d: int, nb: Node, q0: seq<Entry>) returns (q: seq<Entry>)
    requires m.DistSound(m.dist, m.startNode) && m.QueueSound(m.startNode, q0) && m.Pending(m.dist, q0, Some(c))
    requires m.Reaches(m.startNode, c, d) && m.Step(c, nb)
    modifies m
    ensures m.startNode == old(m.startNode)
    ensures m.DistSound(m.dist, m.startNode) && m.QueueSound(m.startNode, q) && m.Pending(m.dist, q, Some(c))
    ensures forall n :: n in old(m.dist) ==> n in m.dist && m.dist[n] <= old(m.dist)[n]
    ensures nb in m.dist && m.dist[nb] <= d + 1
    ensures (c in m.dist <==> c in old(m.dist)) && (c in m.dist ==> m.dist[c] == old(m.dist)[c])
    ensures forall e :: e in q0 ==> e in q
  {
    q := q0;
    m.StepAdjacent(c, nb);
    if nb !in m.dist || d + 1 < m.dist[nb] {
      RelaxStep(m, m.dist, m.startNode, q, c, d, nb);
      m.UpdateDist(nb, d + 1);
      q := q + [Entry(m.dist[nb], nb)];
    }
  }

  /**
   * The inner loop of `dijkstra_climb` over the popped node's neighbours:
   * each one whose distance the popped distance plus one improves gets it
   * and is queued with it.
   */
  method RelaxNeighbors(m: MountainGraph, c: Node, d: int, nbs: seq<Node>, q0: seq<Entry>) returns (q: seq<Entry>)
    requires m.DistSound(m.dist, m.startNode) && m.QueueSound(m.startNode, q0)
    requires m.Pending(m.dist, q0, Some(c)) && m.Reaches(m.startNode, c, d)
    requires c in m.dist && m.dist[c] != d ==> Entry(m.dist[c], c) in q0 || m.Relaxed(m.dist, c)
    requires forall x :: x in nbs <==> m.Step(c, x)
    modifies m
    ensures m.startNode == old(m.startNode)
    ensures m.DistSound(m.dist, m.startNode) && m.QueueSound(m.startNode, q) && m.Pending(m.dist, q, None)
    ensures forall n :: n in old(m.dist) ==> n in m.dist && m.dist[n] <= old(m.dist)[n]
  {
    ghost var ds0 := m.dist;
    q := RelaxEach(m, c, d, nbs, q0);
    PoppedSettled(m, ds0, m.dist, q0, q, c, d, nbs);
  }

  /** The loop itself: afterwards every neighbour is at most one further than the popped node. */
  method RelaxEach(m: MountainGraph, c: Node, d: int, nbs: seq<Node>, q0: seq<Entry>) returns (q: seq<Entry>)
    requires m.DistSound(m.dist, m.startNode) && m.QueueSound(m.startNode, q0)
    requires m.Pending(m.dist, q0, Some(c)) && m.Reaches(m.startNode, c, d)
    requires forall j :: 0 <= j < |nbs| ==> m.Step(c, nbs[j])
    modifies m
    ensures m.startNode == old(m.startNode)
    ensures m.DistSound(m.dist, m.startNode) && m.QueueSound(m.startNode, q) && m.Pending(m.dist, q, Some(c))
    ensures forall n :: n in old(m.dist) ==> n in m.dist && m.dist[n] <= old(m.dist)[n]
    ensures forall j :: 0 <= j < |nbs| ==> nbs[j] in m.dist && m.dist[nbs[j]] <= d + 1
    ensures (c in m.dist <==> c in old(m.dist)) && (c in m.dist ==> m.dist[c] == old(m.dist)[c])
    ensures forall e :: e in q0 ==> e in q
  {
    q := q0;
    var s := m.startNode;
    ghost var ds0 := m.dist;
    for k := 0 to |nbs|
      invariant m.startNode == s
      invariant m.DistSound(m.dist, s) && m.QueueSound(s, q) && m.Pending(m.dist, q, Some(c))
      invariant forall n :: n in ds0 ==> n in m.dist && m.dist[n] <= ds0[n]
      invariant forall j :: 0 <= j < k ==> nbs[j] in m.dist && m.dist[nbs[j]] <= d + 1
      invariant c in m.dist <==> c in ds0
      invariant c in m.dist ==> m.dist[c] == ds0[c]
      invariant forall e :: e in q0 ==> e in q
    {
      q := RelaxOne(m, c, d, nbs[k], q);
    }
  }

  /** After the inner loop the popped node is queued with its distance or relaxed. */
  lemma PoppedSettled(m: MountainGraph, ds0: map<Node, int>, ds: map<Node, int>, q0: seq<Entry>, q: seq<Entry>,
                      c: Node, d: int, nbs: seq<Node>)
    requires m.Pending(ds, q, Some(c))
    requires c in ds0 && ds0[c] != d ==> Entry(ds0[c], c) in q0 || m.Relaxed(ds0, c)
    requires forall x :: x in nbs <==> m.Step(c, x)
    requires forall j :: 0 <= j < |nbs| ==> nbs[j] in ds && ds[nbs[j]] <= d + 1
    requires (c in ds <==> c in ds0) && (c in ds ==> ds[c] == ds0[c])
    requires forall n :: n in ds0 ==> n in ds && ds[n] <= ds0[n]
    requires forall e :: e in q0 ==> e in q
    ensures m.Pending(ds, q, None)
  {
    if c in ds {
      if ds[c] == d {
        assert m.Relaxed(ds, c);
      } else if !(Entry(ds[c], c) in q) {
        m.RelaxedLowered(ds0, ds, c);
      }
    }
  }

  /**
   * `dijkstra_climb`: from the given start (or the current one), relaxes
   * distances until the queue is empty. On completion every recorded
   * distance is the length of a climb from the start and no climb from the
   * start is shorter, so the recorded distances are the shortest ones.
   */
  method DijkstraClimb(m: MountainGraph, startNode: Option<Node>, fuel: nat) returns (r: Outcome<map<Node, int>>)
    requires startNode.Some? || m.Consistent()
    modifies m
    ensures m.startNode == if startNode.Some? then startNode.value else old(m.startNode)
    ensures startNode.None? ==> forall n :: n in old(m.dist) ==> n in m.dist && m.dist[n] <= old(m.dist)[n]
    ensures r.Failed? ==> r.error == KeyError
    ensures r.Done? ==> r.value == m.dist && m.Consistent()
    ensures r.Done? ==> forall n :: n in m.dist ==> m.Reaches(m.startNode, n, m.dist[n])
    ensures r.Done? ==> forall p, n, d :: m.ClimbFrom(m.startNode, p, n, d) ==> n in m.dist && m.dist[n] <= d
  {
    if startNode.Some? {
      m.UpdateStartNode(startNode.value);
    }
    var s := m.startNode;
    ghost var ds0 := m.dist;
    m.ReachesStart(s);
    var q := [Entry(0, s)];
    var f: nat := fuel;
    while q != []
      invariant m.startNode == s
      invariant m.DistSound(m.dist, s) && m.QueueSound(s, q) && m.Pending(m.dist, q, None)
      invariant forall n :: n in ds0 ==> n in m.dist && m.dist[n] <= ds0[n]
      decreases f
    {
      if f == 0 {
        return OutOfFuel;
      }
      f := f - 1;
      var i := MinIndex(q);
      var cur := q[i];
      PopKeeps(m, m.dist, s, q, i);
      q := q[..i] + q[i + 1..];
      var nbs := m.Neighbors(cur.node);
      if nbs.Err? {
        return Failed(nbs.error);
      }
      q := RelaxNeighbors(m, cur.node, cur.d, nbs.value, q);
    }
    forall p, n, d | m.ClimbFrom(s, p, n, d)
      ensures n in m.dist && m.dist[n] <= d
    {
      m.RelaxedBound(m.dist, s, p, n, d);
    }
    return Done(m.dist);
  }

  /** A lowest cell from which the end is reached in `d` steps. */
  ghost predicate LowStartReaches(m: MountainGraph, d: int)
  {
    exists s :: s in m.nodes && m.nodes[s] == 0 && m.Reaches(s, m.endNode, d)
  }

  /**
   * `shortest_max_height_climb`: the least distance to the end over every
   * cell of height 0 as start, each climbed afresh; when no such start
   * reaches the end the distance stays infinite and `int` of it fails.
   */
  method ShortestMaxHeightClimb(m: MountainGraph, fuel: nat) returns (r: Outcome<int>)
    modifies m
    ensures r.Failed? ==> r.error == KeyError || r.error == OverflowError
    ensures r.Done? ==> LowStartReaches(m, r.value)
    ensures r.Done? ==> forall s, p, d :: s in m.nodes && m.nodes[s] == 0 && m.ClimbFrom(s, p, m.endNode, d) ==> r.value <= d
    ensures r == Failed(OverflowError) ==> forall s, p, d :: s in m.nodes && m.nodes[s] == 0 ==> !m.ClimbFrom(s, p, m.endNode, d)
  {
    var starts := set p | p in m.nodes && m.nodes[p] == 0;
    var todo := starts;
    var shortest: Option<int> := None;
    while todo != {}
      invariant todo <= starts
      invariant shortest.Some? ==> LowStartReaches(m, shortest.value)
      invariant forall s, p, d :: s in starts - todo && m.ClimbFrom(s, p, m.endNode, d) ==>
                  shortest.Some? && shortest.value <= d
      decreases |todo|
    {
      var node :| node in todo;
      var dists := DijkstraClimb(m, Some(node), fuel);
      if dists.OutOfFuel? {
        return OutOfFuel;
      } else if dists.Failed? {
        return Failed(dists.error);
      }
      if m.endNode in dists.value {
        var d := dists.value[m.endNode];
        if shortest.None? || d < shortest.value {
          shortest := Some(d);
        }
      }
      todo := todo - {node};
    }
    if shortest.None? {
      return Failed(OverflowError);
    }
    return Done(shortest.value);
  }

  /** Building the graph: with no rows at all, `input_rows[0]` raises `IndexError`. */
  method NewMountain(rows: seq<string>) returns (r: Result<MountainGraph>)
    ensures r.Err? <==> rows == []
    ensures r.Err? ==> r.error == IndexError
    ensures r.Ok? ==> fresh(r.value) && r.value.Consistent() && r.value.nrows == |rows|
  {
    if rows == [] {
      return Err(IndexError);
    }
    var m := new MountainGraph(rows);
    return Ok(m);
  }
}
