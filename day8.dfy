/**
 * Tree heights on a grid of digit characters: which trees can be seen from
 * outside the grid, and how far each tree can see along its row and column.
 */
module Day8 {
  import opened Wrappers
  import opened PyOps

  // ---------------------------------------------------------- running maxima

  /** A running maximum's height: the sentinel "-1" before any tree, or a tree's character. */
  datatype Mark = Unseen | Tree(c: char)

  /** A running maximum: its height and the index it was found at. */
  datatype Peak = Peak(mark: Mark, at: int)

  /**
   * Python's string comparison `c > m`. Every character above '-' (all
   * digits among them) is greater than the sentinel "-1"; '-' itself is not.
   */
  predicate Exceeds(c: char, m: Mark)
  {
    match m
    case Unseen => c > '-'
    case Tree(d) => c > d
  }

  /** `left_max[k]`: the running maximum from the left, replaced only by a strictly taller tree. */
  function LeftMax(line: string, k: int): Peak
    requires -1 <= k < |line|
    decreases k + 1
  {
    if k == -1 then Peak(Unseen, -1)
    else
      var prev := LeftMax(line, k - 1);
      if Exceeds(line[k], prev.mark) then Peak(Tree(line[k]), k) else prev
  }

  /** `right_max[k]`: the running maximum from the right, replaced only by a strictly taller tree. */
  function RightMax(line: string, k: int): Peak
    requires 0 <= k <= |line|
    decreases |line| - k
  {
    if k == |line| then Peak(Unseen, |line|)
    else
      var prev := RightMax(line, k + 1);
      if Exceeds(line[k], prev.mark) then Peak(Tree(line[k]), k) else prev
  }

  /** `generate_lr_max_dicts`: both running maxima, filled in one pass from both ends. */
  method GenerateLrMax(line: string) returns (left: seq<Peak>, right: seq<Peak>)
    ensures |left| == |line| && |right| == |line|
    ensures forall k :: 0 <= k < |line| ==> left[k] == LeftMax(line, k)
    ensures forall k :: 0 <= k < |line| ==> right[k] == RightMax(line, k)
  {
    var n := |line|;
    left, right := [], [];
    for k := 0 to n
      invariant |left| == k && |right| == k
      invariant forall i :: 0 <= i < k ==> left[i] == LeftMax(line, i)
      invariant forall i :: 0 <= i < k ==> right[i] == RightMax(line, n - k + i)
    {
      var prevL := if k == 0 then Peak(Unseen, -1) else left[k - 1];
      var l := if Exceeds(line[k], prevL.mark) then Peak(Tree(line[k]), k) else prevL;
      var prevR := if k == 0 then Peak(Unseen, n) else right[0];
      var i := n - k - 1;
      var r := if Exceeds(line[i], prevR.mark) then Peak(Tree(line[i]), i) else prevR;
      left := left + [l];
      right := [r] + right;
    }
  }

  /** Every tree is above the sentinel, as the digits of a puzzle grid are. */
  predicate Heights(line: string)
  {
    forall i :: 0 <= i < |line| ==> line[i] > '-'
  }

  /**
   * `left_max[k]` is the tallest tree among positions 0..k, at the earliest
   * position it occurs (a later tree of equal height does not replace it).
   */
  lemma {:induction false} LeftMaxMeaning(line: string, k: int)
    requires Heights(line) && 0 <= k < |line|
    ensures var p := LeftMax(line, k);
            0 <= p.at <= k && p.mark == Tree(line[p.at])
            && (forall j :: 0 <= j <= k ==> line[j] <= line[p.at])
            && (forall j :: 0 <= j < p.at ==> line[j] < line[p.at])
    decreases k
  {
    if k > 0 {
      LeftMaxMeaning(line, k - 1);
    }
  }

  /**
   * `right_max[k]` is the tallest tree among positions k..L-1, at the latest
   * position it occurs.
   */
  lemma {:induction false} RightMaxMeaning(line: string, k: int)
    requires Heights(line) && 0 <= k < |line|
    ensures var p := RightMax(line, k);
            k <= p.at < |line| && p.mark == Tree(line[p.at])
            && (forall j :: k <= j < |line| ==> line[j] <= line[p.at])
            && (forall j :: p.at < j < |line| ==> line[j] < line[p.at])
    decreases |line| - k
  {
    if k < |line| - 1 {
      RightMaxMeaning(line, k + 1);
    }
  }

  // ------------------------------------------------------------- visibility

  /** The four-way `any` in `get_visible_trees`. */
  predicate IsVisible(line: string, k: int)
    requires 0 <= k < |line|
  {
    var l := LeftMax(line, k);
    var r := RightMax(line, k);
    l.at == k || Exceeds(line[k], l.mark) || r.at == k || Exceeds(line[k], r.mark)
  }

  /** The visible positions among 0..n-1, in increasing order. */
  function VisibleUpTo(line: string, n: nat): (r: seq<int>)
    requires n <= |line|
    ensures forall k :: k in r <==> 0 <= k < n && IsVisible(line, k)
    ensures forall i :: 0 <= i < |r| ==> 0 <= r[i] < n
    ensures forall i, j :: 0 <= i < j < |r| ==> r[i] < r[j]
  {
    if n == 0 then []
    else VisibleUpTo(line, n - 1) + (if IsVisible(line, n - 1) then [n - 1] else [])
  }

  /** `get_visible_trees`. */
  function GetVisibleTrees(line: string): seq<int>
  {
    VisibleUpTo(line, |line|)
  }

  /**
   * A tree is visible exactly when it is strictly taller than every tree
   * before it or every tree after it.
   */
  lemma VisibleMeaning(line: string, k: int)
    requires Heights(line) && 0 <= k < |line|
    ensures k in GetVisibleTrees(line) <==>
              (forall j :: 0 <= j < k ==> line[j] < line[k])
              || (forall j :: k < j < |line| ==> line[j] < line[k])
  {
    LeftMaxMeaning(line, k);
    RightMaxMeaning(line, k);
  }

  /** Both edge trees of a non-empty line are visible. */
  lemma EdgesVisible(line: string)
    requires Heights(line) && |line| > 0
    ensures 0 in GetVisibleTrees(line) && |line| - 1 in GetVisibleTrees(line)
  {
    VisibleMeaning(line, 0);
    VisibleMeaning(line, |line| - 1);
  }

  /** `zip(*rows)` joined back into strings: as many columns as the shortest row. */
  function Columns(rows: seq<string>): seq<string>
  {
    var n := ShortestRow(rows);
    seq(n, j requires 0 <= j < n => seq(|rows|, i requires 0 <= i < |rows| => rows[i][j]))
  }

  /** Column j holds character j of every row, top to bottom, and there are as many columns as the shortest row has characters. */
  lemma ColumnsShape(rows: seq<string>)
    ensures forall j :: 0 <= j < |Columns(rows)| ==> |Columns(rows)[j]| == |rows|
    ensures forall j, i :: 0 <= j < |Columns(rows)| && 0 <= i < |rows| ==>
              j < |rows[i]| && Columns(rows)[j][i] == rows[i][j]
    ensures forall i :: 0 <= i < |rows| ==> |Columns(rows)| <= |rows[i]|
  {
    var n := ShortestRow(rows);
    var cs := Columns(rows);
    assert |cs| == n;
    forall j, i | 0 <= j < n && 0 <= i < |rows|
      ensures j < |rows[i]| && cs[j][i] == rows[i][j]
    {
      assert n <= |rows[i]|;
    }
  }

  function ShortestRow(rows: seq<string>): (n: nat)
    ensures forall i :: 0 <= i < |rows| ==> n <= |rows[i]|
    ensures rows != [] ==> exists i :: 0 <= i < |rows| && n == |rows[i]|
  {
    if rows == [] then 0
    else if |rows| == 1 then |rows[0]|
    else Min(ShortestRow(rows[..|rows| - 1]), |rows[|rows| - 1]|)
  }

  /** The positions row scans mark, `(row, index)`, for rows before `n`. */
  ghost function RowMarks(rows: seq<string>, n: int): set<(int, int)>
  {
    set k, ix | 0 <= k < n && k < |rows| && ix in GetVisibleTrees(rows[k]) :: (k, ix)
  }

  /** The positions column scans mark, `(index, column)`, for columns before `n`. */
  ghost function ColumnMarks(cols: seq<string>, n: int): set<(int, int)>
  {
    set k, ix | 0 <= k < n && k < |cols| && ix in GetVisibleTrees(cols[k]) :: (ix, k)
  }

  /**
   * `get_visible_tree_positions`: position (r, c) is reported exactly when
   * tree c of row r is visible along the row, or tree r of column c is
   * visible along the column.
   */
  method GetVisibleTreePositions(rows: seq<string>) returns (positions: set<(int, int)>)
    ensures forall r, c :: (r, c) in positions <==>
              (0 <= r < |rows| && c in GetVisibleTrees(rows[r]))
              || (0 <= c < |Columns(rows)| && r in GetVisibleTrees(Columns(rows)[c]))
  {
    var cols := Columns(rows);
    positions := {};
    for k := 0 to |rows|
      invariant positions == RowMarks(rows, k)
    {
      RowMarksStep(rows, k);
      positions := positions + set ix | ix in GetVisibleTrees(rows[k]) :: (k, ix);
    }
    ghost var fromRows := positions;
    for k := 0 to |cols|
      invariant positions == fromRows + ColumnMarks(cols, k)
    {
      ColumnMarksStep(cols, k);
      positions := positions + set ix | ix in GetVisibleTrees(cols[k]) :: (ix, k);
    }
    MarksMeaning(rows, cols);
  }

  lemma RowMarksStep(rows: seq<string>, k: int)
    requires 0 <= k < |rows|
    ensures RowMarks(rows, k + 1) == RowMarks(rows, k) + set ix | ix in GetVisibleTrees(rows[k]) :: (k, ix)
  {
  }

  lemma ColumnMarksStep(cols: seq<string>, k: int)
    requires 0 <= k < |cols|
    ensures ColumnMarks(cols, k + 1) == ColumnMarks(cols, k) + set ix | ix in GetVisibleTrees(cols[k]) :: (ix, k)
  {
  }

  lemma MarksMeaning(rows: seq<string>, cols: seq<string>)
    ensures forall r, c :: (r, c) in RowMarks(rows, |rows|) + ColumnMarks(cols, |cols|) <==>
              (0 <= r < |rows| && c in GetVisibleTrees(rows[r]))
              || (0 <= c < |cols| && r in GetVisibleTrees(cols[c]))
  {
    forall r, c | 0 <= r < |rows| && c in GetVisibleTrees(rows[r])
      ensures (r, c) in RowMarks(rows, |rows|)
    {
    }
    forall r, c | 0 <= c < |cols| && r in GetVisibleTrees(cols[c])
      ensures (r, c) in ColumnMarks(cols, |cols|)
    {
    }
  }

  // --------------------------------------------------------- view distances

  /**
   * The positions among `lo..n-1` whose tree is at least `height` tall, in
   * increasing order: `[j for j, h in enumerate(line[:k]) if h >= line[k]]`
   * is `Blocking(line, line[k], 0, k)`, and the forward comprehension over
   * `line[k + 1:]` is `Blocking(line, line[k], k + 1, |line|)`.
   */
  function Blocking(line: string, height: char, lo: int, n: int): (r: seq<int>)
    requires 0 <= lo <= n <= |line|
    ensures forall i :: 0 <= i < |r| ==> lo <= r[i] < n && line[r[i]] >= height
    ensures forall j :: lo <= j < n && Blocks(line, height, j) ==> j in r
    ensures forall i, j :: 0 <= i < j < |r| ==> r[i] < r[j]
  {
    if n == lo then []
    else Blocking(line, height, lo, n - 1) + (if line[n - 1] >= height then [n - 1] else [])
  }

  /** The tree at `j` is at least `height` tall. */
  predicate Blocks(line: string, height: char, j: int)
    requires 0 <= j < |line|
  {
    line[j] >= height
  }

  /** `vd_backward[k]`, 0 for the edges and for any other key. */
  function ViewBackward(line: string, k: int): nat
  {
    if 1 <= k <= |line| - 2 then
      var b := Blocking(line, line[k], 0, k);
      if b == [] then k else k - b[|b| - 1]
    else 0
  }

  /** `vd_forward[k]`, 0 for the edges and for any other key. */
  function ViewForward(line: string, k: int): nat
  {
    if 1 <= k <= |line| - 2 then
      var f := Blocking(line, line[k], k + 1, |line|);
      if f == [] then |line| - 1 - k else f[0] - k
    else 0
  }

  /**
   * Looking back from an inner tree, the view distance `d` runs to the
   * nearest tree at least as tall, or to the edge: every tree strictly
   * between is shorter, and the tree at distance `d` blocks unless it is
   * the edge.
   */
  lemma ViewBackwardMeaning(line: string, k: int)
    requires 1 <= k <= |line| - 2
    ensures var d := ViewBackward(line, k);
            1 <= d <= k
            && (forall j :: k - d < j < k ==> line[j] < line[k])
            && (d < k ==> line[k - d] >= line[k])
  {
    var b := Blocking(line, line[k], 0, k);
    var d := ViewBackward(line, k);
    forall j | 0 <= j < k && Blocks(line, line[k], j)
      ensures j <= k - d
    {
      var i :| 0 <= i < |b| && b[i] == j;
      assert i == |b| - 1 || b[i] < b[|b| - 1];
    }
    forall j | k - d < j < k
      ensures line[j] < line[k]
    {
      assert !Blocks(line, line[k], j);
    }
  }

  /** Looking forward, the distance runs to the nearest tree at least as tall, or to the edge. */
  lemma ViewForwardMeaning(line: string, k: int)
    requires 1 <= k <= |line| - 2
    ensures var d := ViewForward(line, k);
            1 <= d <= |line| - 1 - k
            && (forall j :: k < j < k + d ==> line[j] < line[k])
            && (d < |line| - 1 - k ==> line[k + d] >= line[k])
  {
    var f := Blocking(line, line[k], k + 1, |line|);
    var d := ViewForward(line, k);
    forall j | k < j < |line| && Blocks(line, line[k], j)
      ensures k + d <= j
    {
      var i :| 0 <= i < |f| && f[i] == j;
      assert i == 0 || f[0] < f[i];
    }
    forall j | k < j < k + d
      ensures line[j] < line[k]
    {
      assert !Blocks(line, line[k], j);
    }
  }

  /** `generate_view_distances`: the two defaultdicts as sequences indexed by position. */
  method GenerateViewDistances(line: string) returns (back: seq<nat>, fwd: seq<nat>)
    ensures |back| == |line| && |fwd| == |line|
    ensures (back, fwd) == Distances(line)
  {
    var n := |line|;
    back, fwd := seq(n, _ => 0), seq(n, _ => 0);
    var k := 1;
    while k < n - 1
      invariant 1 <= k && (n >= 2 ==> k <= n - 1)
      invariant |back| == n && |fwd| == n
      invariant forall i :: 0 <= i < k && i < n ==> back[i] == ViewBackward(line, i) && fwd[i] == ViewForward(line, i)
      invariant forall i :: k <= i < n ==> back[i] == 0 && fwd[i] == 0
    {
      back := back[k := ViewBackward(line, k)];
      fwd := fwd[k := ViewForward(line, k)];
      k := k + 1;
    }
    assert back == Distances(line).0 && fwd == Distances(line).1;
  }

  // ---------------------------------------------------------- scenic scores

  /** A defaultdict read: positions without an entry have distance 0. */
  function Lookup(s: seq<nat>, i: int): nat
  {
    if 0 <= i < |s| then s[i] else 0
  }

  /** `get_scenic_score`: the product of the four view distances. */
  function GetScenicScore(rowIx: int, colIx: int, left: seq<nat>, right: seq<nat>, up: seq<nat>, down: seq<nat>): int
  {
    Lookup(left, rowIx) * Lookup(right, rowIx) * Lookup(up, colIx) * Lookup(down, colIx)
  }

  /** The scenic score of the tree at row `r`, column `c`. */
  function ScenicAt(rows: seq<string>, r: int, c: int): int
    requires 0 <= r < |rows| && 0 <= c < |Columns(rows)|
  {
    var col := Columns(rows)[c];
    ViewBackward(rows[r], c) * ViewForward(rows[r], c) * ViewBackward(col, r) * ViewForward(col, r)
  }

  /** The grid shape `get_max_scenic_score` indexes without failing. */
  predicate Square(rows: seq<string>)
  {
    rows != [] && |Columns(rows)| == |rows| == |rows[0]|
  }

  /** The scores of every row against every column, `table[r][c] == ScenicAt(rows, r, c)`. */
  function ScoreTable(rows: seq<string>): (t: seq<seq<int>>)
    ensures |t| == |rows| && forall r :: 0 <= r < |t| ==> |t[r]| == |Columns(rows)|
  {
    var w := |Columns(rows)|;
    seq(|rows|, r requires 0 <= r < |rows| => seq(w, c requires 0 <= c < w => ScenicAt(rows, r, c)))
  }

  /**
   * The positions the score loop can have reached in a table of `|t|` rows
   * of width `w`: rows before `k`, each `|t|` long, then row `k` up to `j`.
   */
  predicate ScoresDomain(t: seq<seq<int>>, w: int, k: int, j: int)
  {
    (forall r :: 0 <= r < |t| ==> |t[r]| == w)
    && 0 <= k <= |t| && 0 <= j <= |t| && j <= w
    && (k > 0 ==> |t| <= w) && (j > 0 ==> k < |t|)
  }

  /** The scores in the loop's order: rows 0..k-1 in full, then row k up to column j. */
  function Scores(t: seq<seq<int>>, w: int, k: int, j: int): seq<int>
    requires ScoresDomain(t, w, k, j)
    decreases k, j
  {
    if j > 0 then Scores(t, w, k, j - 1) + [t[k][j - 1]]
    else if k > 0 then Scores(t, w, k - 1, |t|)
    else []
  }

  /** Every score listed is some entry of the table's first `|t|` columns. */
  lemma {:induction false} ScoresSound(t: seq<seq<int>>, w: int, k: int, j: int)
    requires ScoresDomain(t, w, k, j)
    ensures forall x :: x in Scores(t, w, k, j) ==>
              exists r, c :: 0 <= r < |t| && 0 <= c < |t| && c < w && x == t[r][c]
    decreases k, j
  {
    if j > 0 {
      ScoresSound(t, w, k, j - 1);
    } else if k > 0 {
      ScoresSound(t, w, k - 1, |t|);
    }
  }

  /** Every entry before (k, j) is listed. */
  lemma {:induction false} ScoresComplete(t: seq<seq<int>>, w: int, k: int, j: int)
    requires ScoresDomain(t, w, k, j)
    ensures forall r, c :: (0 <= r < k && 0 <= c < |t|) || (r == k && 0 <= c < j) ==> t[r][c] in Scores(t, w, k, j)
    decreases k, j
  {
    if j > 0 {
      ScoresComplete(t, w, k, j - 1);
    } else if k > 0 {
      ScoresComplete(t, w, k - 1, |t|);
    }
  }

  /** `max(scores)`. */
  function MaxOf(s: seq<int>): (m: int)
    requires s != []
    ensures m in s && forall i :: 0 <= i < |s| ==> s[i] <= m
  {
    if |s| == 1 then s[0] else Max(MaxOf(s[..|s| - 1]), s[|s| - 1])
  }

  /** Both view distances of every position of a line. */
  function Distances(line: string): (seq<nat>, seq<nat>)
  {
    (seq(|line|, i => ViewBackward(line, i)), seq(|line|, i => ViewForward(line, i)))
  }

  /** The score the loop appends at row `k`, column `j` is that tree's scenic score. */
  lemma ScoreStep(rows: seq<string>, k: int, j: int, left: seq<nat>, right: seq<nat>, up: seq<nat>, down: seq<nat>)
    requires 0 <= k < |rows| && 0 <= j < |Columns(rows)|
    requires (left, right) == Distances(rows[k]) && (up, down) == Distances(Columns(rows)[j])
    ensures GetScenicScore(j, k, left, right, up, down) == ScenicAt(rows, k, j)
  {
    ColumnsShape(rows);
  }

  /** The cached view distances: every cached entry is the one for its row (or column). */
  ghost predicate CacheOf(cache: map<int, (seq<nat>, seq<nat>)>, lines: seq<string>)
  {
    forall i :: i in cache ==> 0 <= i < |lines| && cache[i] == Distances(lines[i])
  }

  /**
   * One pass of the inner loop of `get_max_scenic_score`: fill the caches
   * for row `k` and column `j` if they are empty, then score the tree. It
   * fails (`ok` false) exactly when `k` is past the rows or `j` past the
   * columns.
   */
  method ScoreCell(rows: seq<string>, cols: seq<string>, k: int, j: int,
                   rowCache: map<int, (seq<nat>, seq<nat>)>, colCache: map<int, (seq<nat>, seq<nat>)>)
    returns (ok: bool, rowCache': map<int, (seq<nat>, seq<nat>)>, colCache': map<int, (seq<nat>, seq<nat>)>, score: int)
    requires cols == Columns(rows) && 0 <= k && 0 <= j
    requires CacheOf(rowCache, rows) && CacheOf(colCache, cols)
    ensures CacheOf(rowCache', rows) && CacheOf(colCache', cols)
    ensures ok <==> k < |rows| && j < |cols|
    ensures ok ==> score == ScenicAt(rows, k, j)
  {
    rowCache', colCache' := rowCache, colCache;
    if k !in rowCache' {
      if k >= |rows| {
        return false, rowCache', colCache', 0;
      }
      var left, right := GenerateViewDistances(rows[k]);
      rowCache' := rowCache'[k := (left, right)];
    }
    if j !in colCache' {
      if j >= |cols| {
        return false, rowCache', colCache', 0;
      }
      var up, down := GenerateViewDistances(cols[j]);
      colCache' := colCache'[j := (up, down)];
    }
    var (left, right) := rowCache'[k];
    var (up, down) := colCache'[j];
    ScoreStep(rows, k, j, left, right, up, down);
    return true, rowCache', colCache', GetScenicScore(j, k, left, right, up, down);
  }

  /**
   * The inner loop of `get_max_scenic_score` for row `k`: `ok` is false
   * when an index runs past the rows or the columns.
   */
  method ScoreRow(rows: seq<string>, cols: seq<string>, k: int, n: int,
                  rowCache: map<int, (seq<nat>, seq<nat>)>, colCache: map<int, (seq<nat>, seq<nat>)>, scores: seq<int>)
    returns (ok: bool, rowCache': map<int, (seq<nat>, seq<nat>)>, colCache': map<int, (seq<nat>, seq<nat>)>, scores': seq<int>)
    requires cols == Columns(rows) && n == |rows| > 0 && 0 <= k
    requires CacheOf(rowCache, rows) && CacheOf(colCache, cols)
    requires ScoresDomain(ScoreTable(rows), |cols|, k, 0) && scores == Scores(ScoreTable(rows), |cols|, k, 0)
    ensures CacheOf(rowCache', rows) && CacheOf(colCache', cols)
    ensures ok ==> k < |rows| && n <= |cols|
    ensures ok ==> scores' == Scores(ScoreTable(rows), |cols|, k + 1, 0)
    ensures !ok ==> k >= |rows| || n > |cols|
  {
    ghost var table := ScoreTable(rows);
    rowCache', colCache', scores' := rowCache, colCache, scores;
    for j := 0 to n
      invariant CacheOf(rowCache', rows) && CacheOf(colCache', cols)
      invariant j <= |cols| && (j > 0 ==> k < |rows|)
      invariant ScoresDomain(table, |cols|, k, j) && scores' == Scores(table, |cols|, k, j)
    {
      var cellOk, score;
      cellOk, rowCache', colCache', score := ScoreCell(rows, cols, k, j, rowCache', colCache');
      if !cellOk {
        return false, rowCache', colCache', scores';
      }
      assert table[k][j] == score;
      scores' := scores' + [score];
    }
    assert Scores(table, |cols|, k + 1, 0) == Scores(table, |cols|, k, n);
    return true, rowCache', colCache', scores';
  }

  /**
   * `get_max_scenic_score`: the loops use the length of the first row as
   * the number of rows and the length of the first column as the number of
   * columns, so any grid that is not square fails with an `IndexError`;
   * otherwise the result is the largest scenic score of any tree. The view
   * distances of each row and column are computed once and cached.
   */
  method GetMaxScenicScore(rows: seq<string>) returns (r: Result<int>)
    ensures r.Err? <==> !Square(rows)
    ensures r.Err? ==> r.error == IndexError
    ensures r.Ok? ==>
              (exists i, j :: 0 <= i < |rows| && 0 <= j < |rows| && r.value == ScenicAt(rows, i, j))
              && forall i, j :: 0 <= i < |rows| && 0 <= j < |rows| ==> ScenicAt(rows, i, j) <= r.value
  {
    if rows == [] {
      return Err(IndexError);
    }
    var cols := Columns(rows);
    if cols == [] {
      return Err(IndexError);
    }
    FirstColumn(rows);
    var m, n := |rows[0]|, |cols[0]|;
    var rowCache: map<int, (seq<nat>, seq<nat>)> := map[];
    var colCache: map<int, (seq<nat>, seq<nat>)> := map[];
    var scores: seq<int> := [];
    ghost var table := ScoreTable(rows);
    for k := 0 to m
      invariant n == |rows| && k <= |rows| && (k > 0 ==> n <= |cols|)
      invariant CacheOf(rowCache, rows) && CacheOf(colCache, cols)
      invariant ScoresDomain(table, |cols|, k, 0) && scores == Scores(table, |cols|, k, 0)
    {
      var ok;
      ok, rowCache, colCache, scores := ScoreRow(rows, cols, k, n, rowCache, colCache, scores);
      if !ok {
        return Err(IndexError);
      }
    }
    assert Square(rows);
    MaxScoreMeaning(rows, scores);
    return Ok(MaxOf(scores));
  }

  /** The first column is as long as the grid is tall, and no row is shorter than the number of columns. */
  lemma FirstColumn(rows: seq<string>)
    requires Columns(rows) != []
    ensures rows != [] && |Columns(rows)[0]| == |rows| && |Columns(rows)| <= |rows[0]|
  {
    ColumnsShape(rows);
  }

  /** The maximum of the listed scores is the scenic score of some tree and at least that of every tree. */
  lemma MaxScoreMeaning(rows: seq<string>, scores: seq<int>)
    requires Square(rows)
    requires ScoresDomain(ScoreTable(rows), |Columns(rows)|, |rows|, 0)
    requires scores == Scores(ScoreTable(rows), |Columns(rows)|, |rows|, 0)
    ensures scores != []
    ensures (exists i, j :: 0 <= i < |rows| && 0 <= j < |rows| && MaxOf(scores) == ScenicAt(rows, i, j))
    ensures forall i, j :: 0 <= i < |rows| && 0 <= j < |rows| ==> ScenicAt(rows, i, j) <= MaxOf(scores)
  {
    var table := ScoreTable(rows);
    TableMax(table, |Columns(rows)|);
    var best := MaxOf(scores);
    var i0, j0 :| 0 <= i0 < |rows| && 0 <= j0 < |rows| && best == table[i0][j0];
    assert best == ScenicAt(rows, i0, j0);
    forall i, j | 0 <= i < |rows| && 0 <= j < |rows|
      ensures ScenicAt(rows, i, j) <= best
    {
      assert table[i][j] == ScenicAt(rows, i, j);
    }
  }

  /** The largest score listed is an entry of the table's square part, and no entry there exceeds it. */
  lemma TableMax(t: seq<seq<int>>, w: int)
    requires |t| > 0 && ScoresDomain(t, w, |t|, 0)
    ensures Scores(t, w, |t|, 0) != []
    ensures var m := MaxOf(Scores(t, w, |t|, 0));
            (exists i, j :: 0 <= i < |t| && 0 <= j < |t| && m == t[i][j])
            && forall i, j :: 0 <= i < |t| && 0 <= j < |t| ==> t[i][j] <= m
  {
    var scores := Scores(t, w, |t|, 0);
    ScoresComplete(t, w, |t|, 0);
    assert t[0][0] in scores;
    var best := MaxOf(scores);
    ScoresSound(t, w, |t|, 0);
    forall i, j | 0 <= i < |t| && 0 <= j < |t|
      ensures t[i][j] <= best
    {
      MaxOfBounds(scores, t[i][j]);
    }
  }

  lemma MaxOfBounds(s: seq<int>, x: int)
    requires x in s
    ensures x <= MaxOf(s)
  {
    var i :| 0 <= i < |s| && s[i] == x;
  }
}
