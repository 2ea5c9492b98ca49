/**
 * Crate stacks rearranged by a crane: each move lifts the top crates of one
 * stack onto another, one at a time (model 9000) or all at once (9001).
 */
module Day5 {
  import opened Wrappers
  import opened PyOps
  import opened Text

  /** A stack of crates; index 0 is the top. */
  type Stack = seq<char>

  function Reverse<T>(s: seq<T>): (r: seq<T>)
    ensures |r| == |s| && forall i :: 0 <= i < |s| ==> r[i] == s[|s| - 1 - i]
  {
    if s == [] then [] else [s[|s| - 1]] + Reverse(s[..|s| - 1])
  }

  lemma {:induction false} ReverseMultiset<T>(s: seq<T>)
    ensures multiset(Reverse(s)) == multiset(s)
  {
    if s != [] {
      ReverseMultiset(s[..|s| - 1]);
      assert s == s[..|s| - 1] + [s[|s| - 1]];
    }
  }

  /** `crane_op`: the crates the crane lifts off the top, in the order they land. */
  function CraneOp(stack: Stack, amount: int, version: string): Stack
  {
    if version == "9001" then PyTake(stack, amount) else Reverse(PyTake(stack, amount))
  }

  /**
   * The crane lifts `min(amount, |stack|)` crates: the 9001 keeps them in
   * order, any other crane reverses them; either way they are the top ones.
   */
  lemma CraneOpMeaning(stack: Stack, amount: int, version: string)
    requires amount >= 0
    ensures var m := Min(amount, |stack|);
            var r := CraneOp(stack, amount, version);
            |r| == m
            && (forall i :: 0 <= i < m ==> r[i] == if version == "9001" then stack[i] else stack[m - 1 - i])
            && multiset(r) == multiset(stack[..m])
  {
    ReverseMultiset(PyTake(stack, amount));
  }

  /** The position `xs[i]` refers to in a list of length `n`, negative indices counting from the end. */
  function Position(n: nat, i: int): (p: Option<nat>)
    ensures p.Some? <==> -(n as int) <= i < n
    ensures p.Some? ==> p.value < n && (i >= 0 ==> p.value == i) && (i < 0 ==> p.value == n + i)
  {
    if 0 <= i < n then Some(i) else if -(n as int) <= i < 0 then Some(n + i) else None
  }

  /**
   * One rearrangement `[amount, from + 1, to + 1]`: the lifted crates go on
   * top of the destination, then the source loses its top `amount` crates.
   */
  function Move(stacks: seq<Stack>, op: seq<int>, version: string): (r: Result<seq<Stack>>)
    ensures r.Err? ==> r.error == IndexError
    ensures r.Ok? ==> |r.value| == |stacks|
  {
    if |op| < 3 then Err(IndexError)
    else
      var amt, f, t := op[0], Position(|stacks|, op[1] - 1), Position(|stacks|, op[2] - 1);
      if f.None? || t.None? then Err(IndexError)
      else
        var s1 := stacks[t.value := CraneOp(stacks[f.value], amt, version) + stacks[t.value]];
        Ok(s1[f.value := PyDrop(s1[f.value], amt)])
  }

  /** The crates of all stacks together. */
  function Crates(stacks: seq<Stack>): multiset<char>
  {
    if stacks == [] then multiset{} else Crates(stacks[..|stacks| - 1]) + multiset(stacks[|stacks| - 1])
  }

  lemma {:induction false} CratesUpdate(stacks: seq<Stack>, i: nat, v: Stack)
    requires i < |stacks|
    ensures Crates(stacks[i := v]) + multiset(stacks[i]) == Crates(stacks) + multiset(v)
  {
    var n := |stacks| - 1;
    var u := stacks[i := v];
    var front := stacks[..n];
    assert Crates(stacks) == Crates(front) + multiset(stacks[n]);
    assert Crates(u) == Crates(u[..n]) + multiset(u[n]);
    if i < n {
      assert u[..n] == front[i := v] && u[n] == stacks[n] && front[i] == stacks[i];
      CratesUpdate(front, i, v);
      var a, b, c, d := Crates(front[i := v]), multiset(stacks[n]), multiset(stacks[i]), multiset(v);
      assert a + c == Crates(front) + d;
      calc {
        Crates(u) + c;
        a + b + c;
        (a + c) + b;
        Crates(front) + d + b;
        Crates(front) + b + d;
      }
    } else {
      assert u[..n] == front && u[n] == v;
    }
  }

  /**
   * A move between two different stacks puts the lifted block on top of the
   * destination, leaves the source without its top `amount` crates and
   * touches no other stack.
   */
  lemma MoveMeaning(stacks: seq<Stack>, op: seq<int>, version: string)
    requires Move(stacks, op, version).Ok?
    requires Position(|stacks|, op[1] - 1) != Position(|stacks|, op[2] - 1)
    ensures var r := Move(stacks, op, version).value;
            var f, t := Position(|stacks|, op[1] - 1).value, Position(|stacks|, op[2] - 1).value;
            r[t] == CraneOp(stacks[f], op[0], version) + stacks[t]
            && r[f] == PyDrop(stacks[f], op[0])
            && (forall k :: 0 <= k < |stacks| && k != f && k != t ==> r[k] == stacks[k])
  {
  }

  /** A move between two stacks, of no more crates than the source holds, loses and makes none. */
  lemma MovePreservesCrates(stacks: seq<Stack>, op: seq<int>, version: string)
    requires Move(stacks, op, version).Ok?
    requires Position(|stacks|, op[1] - 1) != Position(|stacks|, op[2] - 1)
    requires 0 <= op[0] <= |stacks[Position(|stacks|, op[1] - 1).value]|
    ensures Crates(Move(stacks, op, version).value) == Crates(stacks)
  {
    var amt := op[0];
    var f, t := Position(|stacks|, op[1] - 1).value, Position(|stacks|, op[2] - 1).value;
    var src, dst := stacks[f], stacks[t];
    var lifted := CraneOp(src, amt, version);
    var s1 := stacks[t := lifted + dst];
    var s2 := s1[f := PyDrop(src, amt)];
    assert s1[f] == src;
    assert Move(stacks, op, version).value == s2;
    var take, drop := multiset(PyTake(src, amt)), multiset(PyDrop(src, amt));
    assert multiset(lifted) == take by {
      CraneOpMeaning(src, amt, version);
      assert PyTake(src, amt) == src[..amt];
    }
    assert multiset(src) == take + drop by {
      TakeDrop(src, amt);
      assert src == PyTake(src, amt) + PyDrop(src, amt);
    }
    CratesUpdate(stacks, t, lifted + dst);
    assert Crates(s1) + multiset(dst) == Crates(stacks) + take + multiset(dst);
    Cancel(Crates(s1), Crates(stacks) + take, multiset(dst));
    CratesUpdate(s1, f, PyDrop(src, amt));
    assert Crates(s2) + take + drop == Crates(stacks) + take + drop;
    Cancel(Crates(s2), Crates(stacks), take + drop);
  }

  lemma Cancel<T>(a: multiset<T>, b: multiset<T>, x: multiset<T>)
    requires a + x == b + x
    ensures a == b
  {
    assert forall e :: a[e] == (a + x)[e] - x[e];
  }

  /** All moves in order; the first failing one fails the rest. */
  function Rearrange(stacks: seq<Stack>, ops: seq<seq<int>>, version: string): (r: Result<seq<Stack>>)
    ensures r.Err? ==> r.error == IndexError
  {
    if ops == [] then Ok(stacks)
    else
      match Rearrange(stacks, ops[..|ops| - 1], version)
      case Err(e) => Err(e)
      case Ok(s) => Move(s, ops[|ops| - 1], version)
  }

  lemma {:induction false} RearrangeFailsOnward(stacks: seq<Stack>, ops: seq<seq<int>>, version: string, i: nat)
    requires i <= |ops| && Rearrange(stacks, ops[..i], version).Err?
    ensures Rearrange(stacks, ops, version) == Err(IndexError)
    decreases |ops|
  {
    if i == |ops| {
      assert ops[..i] == ops;
    } else {
      var front := ops[..|ops| - 1];
      assert front[..i] == ops[..i];
      RearrangeFailsOnward(stacks, front, version, i);
    }
  }

  /** `"".join(stack[0] for stack in stacks)`: the top crate of every stack; an empty stack fails. */
  function Tops(stacks: seq<Stack>): (r: Result<string>)
    ensures r.Err? <==> exists k :: 0 <= k < |stacks| && stacks[k] == []
    ensures r.Err? ==> r.error == IndexError
    ensures r.Ok? ==> |r.value| == |stacks| && forall k :: 0 <= k < |stacks| ==> r.value[k] == stacks[k][0]
  {
    if stacks == [] then Ok("")
    else
      var front := stacks[..|stacks| - 1];
      var last := stacks[|stacks| - 1];
      assert forall k :: 0 <= k < |front| ==> front[k] == stacks[k];
      match Tops(front)
      case Err(e) => Err(e)
      case Ok(s) => if last == [] then Err(IndexError) else Ok(s + [last[0]])
  }

  /**
   * A move from a stack onto itself lifts the top crates and puts them back
   * where they were: with no more crates than the stack holds, nothing changes.
   */
  lemma MoveOntoItself(stacks: seq<Stack>, op: seq<int>, version: string)
    requires Move(stacks, op, version).Ok?
    requires Position(|stacks|, op[1] - 1) == Position(|stacks|, op[2] - 1)
    requires 0 <= op[0] <= |stacks[Position(|stacks|, op[1] - 1).value]|
    ensures Move(stacks, op, version).value == stacks
  {
    var f := Position(|stacks|, op[1] - 1).value;
    var src := stacks[f];
    CraneOpMeaning(src, op[0], version);
    var lifted := CraneOp(src, op[0], version);
    assert |lifted| == op[0];
    assert PyDrop(lifted + src, op[0]) == src;
  }

  /** The loop body's two assignments, target first, are one `Move`. */
  lemma MoveSteps(stacks: seq<Stack>, op: seq<int>, version: string, after: seq<Stack>)
    requires |op| >= 3
    requires Position(|stacks|, op[1] - 1).Some? && Position(|stacks|, op[2] - 1).Some?
    requires var f, t := Position(|stacks|, op[1] - 1).value, Position(|stacks|, op[2] - 1).value;
             var s1 := stacks[t := CraneOp(stacks[f], op[0], version) + stacks[t]];
             after == s1[f := PyDrop(s1[f], op[0])]
    ensures Move(stacks, op, version) == Ok(after)
  {
  }

  /** `restack` on given stacks and moves: the moves in order, then the top crates. */
  method Restack(stacks0: seq<Stack>, ops: seq<seq<int>>, version: string) returns (r: Result<string>)
    ensures r == match Rearrange(stacks0, ops, version) case Err(e) => Err(e) case Ok(s) => Tops(s)
  {
    var stacks := stacks0;
    for i := 0 to |ops|
      invariant Rearrange(stacks0, ops[..i], version) == Ok(stacks)
    {
      var opx := ops[i];
      assert ops[..i + 1][..i] == ops[..i] && ops[..i + 1][i] == opx;
      if |opx| < 3 {
        RearrangeFailsOnward(stacks0, ops, version, i + 1);
        return Err(IndexError);
      }
      var amt, fromIx, toIx := opx[0], Position(|stacks|, opx[1] - 1), Position(|stacks|, opx[2] - 1);
      if fromIx.None? || toIx.None? {
        RearrangeFailsOnward(stacks0, ops, version, i + 1);
        return Err(IndexError);
      }
      ghost var before := stacks;
      stacks := stacks[toIx.value := CraneOp(stacks[fromIx.value], amt, version) + stacks[toIx.value]];
      stacks := stacks[fromIx.value := PyDrop(stacks[fromIx.value], amt)];
      MoveSteps(before, opx, version, stacks);
    }
    assert ops[..|ops|] == ops;
    r := Tops(stacks);
  }

  // ---------------------------------------------------------------- parsing

  /** `s[::4]`: every fourth element, from the first. */
  function EveryFourth<T>(s: seq<T>): (r: seq<T>)
    ensures |r| == (|s| + 3) / 4
    ensures forall i :: 0 <= i < |r| ==> 4 * i < |s| && r[i] == s[4 * i]
    decreases |s|
  {
    if s == [] then [] else [s[0]] + EveryFourth(s[Min(4, |s|)..])
  }

  /** `[int(x) for x in words if x.isdigit()]`. */
  function DigitWords(ws: seq<string>): (r: seq<int>)
    ensures |r| <= |ws|
    ensures forall i :: 0 <= i < |r| ==> r[i] >= 0
  {
    if ws == [] then []
    else DigitWords(ws[..|ws| - 1]) + (if IsDigits(ws[|ws| - 1]) then [DigitsValue(ws[|ws| - 1]) as int] else [])
  }

  /** The numbers of a move line are read word by word, in order: a homomorphism over the words. */
  lemma {:induction false} DigitWordsAppend(a: seq<string>, b: seq<string>)
    ensures DigitWords(a + b) == DigitWords(a) + DigitWords(b)
    decreases |b|
  {
    if b == [] {
      assert a + b == a;
    } else {
      assert (a + b)[..|a + b| - 1] == a + b[..|b| - 1];
      DigitWordsAppend(a, b[..|b| - 1]);
    }
  }

  /** A word contributes its value exactly when it is all digits. */
  lemma DigitWordsSingle(w: string)
    ensures DigitWords([w]) == if IsDigits(w) then [DigitsValue(w) as int] else []
  {
    assert [w][..0] == [];
  }

  /** `"[" in line`. */
  predicate HasBracket(line: string)
  {
    '[' in line
  }

  /** The move lines' numbers, in order. */
  function MoveLines(lines: seq<string>): seq<seq<int>>
  {
    if lines == [] then []
    else
      var line := lines[|lines| - 1];
      MoveLines(lines[..|lines| - 1]) + (if StartsWith(line, "move") then [DigitWords(Words(line))] else [])
  }

  /** The crate rows, top row first: every fourth character from the second. */
  function CrateRows(lines: seq<string>): seq<seq<char>>
  {
    if lines == [] then []
    else
      var line := lines[|lines| - 1];
      CrateRows(lines[..|lines| - 1])
      + (if !StartsWith(line, "move") && HasBracket(line) then [EveryFourth(line[1..])] else [])
  }

  /** `[row[k] for row in rows if row[k] != " "]`: a row too short for column `k` fails. */
  function Column(rows: seq<seq<char>>, k: nat): (r: Result<Stack>)
    ensures r.Err? <==> exists j :: 0 <= j < |rows| && |rows[j]| <= k
    ensures r.Err? ==> r.error == IndexError
    ensures r.Ok? ==> forall i :: 0 <= i < |r.value| ==> r.value[i] != ' '
  {
    if rows == [] then Ok([])
    else
      var front := rows[..|rows| - 1];
      var row := rows[|rows| - 1];
      assert forall j :: 0 <= j < |front| ==> front[j] == rows[j];
      match Column(front, k)
      case Err(e) => Err(e)
      case Ok(c) => if |row| <= k then Err(IndexError) else Ok(c + if row[k] != ' ' then [row[k]] else [])
  }

  /** A column's crates are the non-blank entries of the rows, the top row's first. */
  lemma {:induction false} ColumnTop(rows: seq<seq<char>>, k: nat)
    requires Column(rows, k).Ok? && rows != [] && rows[0][k] != ' '
    ensures Column(rows, k).value != [] && Column(rows, k).value[0] == rows[0][k]
  {
    if |rows| > 1 {
      var front := rows[..|rows| - 1];
      assert front[0] == rows[0];
      ColumnTop(front, k);
    } else {
      assert rows[..0] == [];
    }
  }

  /** How many of the rows hold a crate in column `k`. */
  function CrateCount(rows: seq<seq<char>>, k: nat): nat
  {
    if rows == [] then 0
    else
      var row := rows[|rows| - 1];
      CrateCount(rows[..|rows| - 1], k) + (if |row| > k && row[k] != ' ' then 1 else 0)
  }

  /**
   * The stack holds one crate per row that has one in column `k`, and the
   * crate of row `j` sits below the crates of the rows above it.
   */
  lemma {:induction false} ColumnContents(rows: seq<seq<char>>, k: nat)
    requires Column(rows, k).Ok?
    ensures |Column(rows, k).value| == CrateCount(rows, k)
    ensures forall j :: 0 <= j < |rows| && rows[j][k] != ' ' ==>
              CrateCount(rows[..j], k) < |Column(rows, k).value| && Column(rows, k).value[CrateCount(rows[..j], k)] == rows[j][k]
  {
    if rows != [] {
      var front := rows[..|rows| - 1];
      var c := Column(front, k).value;
      ColumnContents(front, k);
      forall j | 0 <= j < |rows| && rows[j][k] != ' '
        ensures CrateCount(rows[..j], k) < |Column(rows, k).value| && Column(rows, k).value[CrateCount(rows[..j], k)] == rows[j][k]
      {
        if j < |front| {
          assert front[j] == rows[j] && front[..j] == rows[..j];
        } else {
          assert rows[..j] == front;
        }
      }
    }
  }

  /** The nine columns `range(9)`, in order. */
  function Stacks(rows: seq<seq<char>>, n: nat): (r: Result<seq<Stack>>)
    requires n <= 9
    ensures r.Ok? ==> |r.value| == n && forall k :: 0 <= k < n ==> Column(rows, k) == Ok(r.value[k])
    ensures r.Err? ==> r.error == IndexError
  {
    if n == 0 then Ok([])
    else
      match Stacks(rows, n - 1)
      case Err(e) => Err(e)
      case Ok(ss) =>
        match Column(rows, n - 1)
        case Err(e) => Err(e)
        case Ok(c) => Ok(ss + [c])
  }

  /** How one more line extends the crate rows and the moves. */
  lemma LoadStep(lines: seq<string>, i: nat)
    requires i < |lines|
    ensures var line := lines[i];
            CrateRows(lines[..i + 1])
            == CrateRows(lines[..i]) + (if !StartsWith(line, "move") && HasBracket(line) then [EveryFourth(line[1..])] else [])
            && MoveLines(lines[..i + 1])
            == MoveLines(lines[..i]) + (if StartsWith(line, "move") then [DigitWords(Words(line))] else [])
  {
    assert lines[..i + 1][..i] == lines[..i];
  }

  /**
   * `load_data` on given lines: "move" lines give their numbers, lines with
   * a `[` give a crate row, and the rows are read into nine stacks.
   */
  method LoadData(lines: seq<string>) returns (r: Result<(seq<Stack>, seq<seq<int>>)>)
    ensures r.Err? <==> Stacks(CrateRows(lines), 9).Err?
    ensures r.Ok? ==> r.value == (Stacks(CrateRows(lines), 9).value, MoveLines(lines))
  {
    var rows: seq<seq<char>> := [];
    var moves: seq<seq<int>> := [];
    for i := 0 to |lines|
      invariant rows == CrateRows(lines[..i]) && moves == MoveLines(lines[..i])
    {
      var line := lines[i];
      LoadStep(lines, i);
      if StartsWith(line, "move") {
        moves := moves + [DigitWords(Words(line))];
      } else if HasBracket(line) {
        rows := rows + [EveryFourth(line[1..])];
      }
    }
    assert lines[..|lines|] == lines;
    var stacks := Stacks(rows, 9);
    if stacks.Err? {
      return Err(stacks.error);
    }
    return Ok((stacks.value, moves));
  }
}
