/** Calorie counting: lines of numbers grouped per elf, blank lines between the elves. */
module Day1 {
  import opened Wrappers
  import opened PyOps
  import opened Text
  import opened Sorting

  /** `line.strip() == ""`, see `StripEmpty`. */
  predicate IsBlank(line: string)
  {
    AllSpace(line)
  }

  /**
   * The state of the loop in `load_elf_data` after the given lines: the
   * closed groups and the group being filled; a line that is not an integer
   * fails.
   */
  function Grouping(lines: seq<string>): (r: Result<(seq<seq<int>>, seq<int>)>)
    ensures r.Err? ==> r.error == ValueError
  {
    if lines == [] then Ok(([], []))
    else
      var line := lines[|lines| - 1];
      match Grouping(lines[..|lines| - 1])
      case Err(e) => Err(e)
      case Ok(state) => Step(state, line)
  }

  /** The groups `load_elf_data` returns: a group still open at the end is dropped. */
  function Elves(lines: seq<string>): Result<seq<seq<int>>>
  {
    match Grouping(lines)
    case Err(e) => Err(e)
    case Ok(state) => Ok(state.0)
  }

  lemma {:induction false} GroupingFailsOnward(lines: seq<string>, i: nat)
    requires i <= |lines| && Grouping(lines[..i]).Err?
    ensures Grouping(lines).Err?
    decreases |lines|
  {
    if i == |lines| {
      assert lines[..i] == lines;
    } else {
      var front := lines[..|lines| - 1];
      assert front[..i] == lines[..i];
      GroupingFailsOnward(front, i);
    }
  }

  /** `load_elf_data` over given lines. */
  method LoadElfData(lines: seq<string>) returns (r: Result<seq<seq<int>>>)
    ensures r == Elves(lines)
  {
    var res: seq<seq<int>> := [];
    var curElf: seq<int> := [];
    for i := 0 to |lines|
      invariant Grouping(lines[..i]) == Ok((res, curElf))
    {
      var line := lines[i];
      assert lines[..i + 1][..i] == lines[..i] && lines[..i + 1][i] == line;
      StripEmpty(line);
      if Strip(line) == "" {
        res := res + [curElf];
        curElf := [];
      } else {
        var n := ParseInt(Strip(line));
        if n.None? {
          GroupingFailsOnward(lines, i + 1);
          return Err(ValueError);
        }
        curElf := curElf + [n.value];
      }
    }
    assert lines[..|lines|] == lines;
    return Ok(res);
  }

  function Flatten(gs: seq<seq<int>>): seq<int>
  {
    if gs == [] then [] else Flatten(gs[..|gs| - 1]) + gs[|gs| - 1]
  }

  /** The numbers of the non-blank lines, in order. */
  function Numbers(lines: seq<string>): seq<int>
  {
    if lines == [] then []
    else
      var line := lines[|lines| - 1];
      Numbers(lines[..|lines| - 1]) + LineNumbers(line)
  }

  function BlankCount(lines: seq<string>): nat
  {
    if lines == [] then 0 else BlankCount(lines[..|lines| - 1]) + (if IsBlank(lines[|lines| - 1]) then 1 else 0)
  }

  /** What one line does to the state of the loop. */
  function Step(state: (seq<seq<int>>, seq<int>), line: string): Result<(seq<seq<int>>, seq<int>)>
  {
    if IsBlank(line) then Ok((state.0 + [state.1], []))
    else
      match ParseInt(Strip(line))
      case None => Err(ValueError)
      case Some(n) => Ok((state.0, state.1 + [n]))
  }

  lemma GroupingStep(lines: seq<string>)
    requires lines != [] && Grouping(lines[..|lines| - 1]).Ok?
    ensures Grouping(lines) == Step(Grouping(lines[..|lines| - 1]).value, lines[|lines| - 1])
  {
  }

  /** The numbers a line contributes. */
  function LineNumbers(line: string): seq<int>
  {
    var n := ParseInt(Strip(line));
    if !IsBlank(line) && n.Some? then [n.value] else []
  }

  /**
   * A blank line closes the open group and starts an empty one; a number line
   * appends its one number to the open group and leaves the closed ones alone.
   */
  lemma StepMeaning(state: (seq<seq<int>>, seq<int>), line: string)
    requires Step(state, line).Ok?
    ensures IsBlank(line) ==> Step(state, line).value == (state.0 + [state.1], [])
    ensures !IsBlank(line) ==> |LineNumbers(line)| == 1
                               && Step(state, line).value == (state.0, state.1 + LineNumbers(line))
    ensures var next := Step(state, line).value;
            Flatten(next.0) + next.1 == Flatten(state.0) + state.1 + LineNumbers(line)
            && |next.0| == |state.0| + (if IsBlank(line) then 1 else 0)
  {
    var next := Step(state, line).value;
    if IsBlank(line) {
      assert (state.0 + [state.1])[..|state.0|] == state.0;
      assert next.1 == [] && LineNumbers(line) == [];
    } else {
      assert next.0 == state.0;
      assert next.1 == state.1 + LineNumbers(line);
    }
  }

  lemma StepKeepsClosed(state: (seq<seq<int>>, seq<int>), line: string)
    requires !IsBlank(line) && Step(state, line).Ok?
    ensures Step(state, line).value.0 == state.0
  {
  }

  /** The position of the blank line that closes group `k`. */
  function BlankAt(lines: seq<string>, k: nat): (r: nat)
    requires k < BlankCount(lines)
    ensures r < |lines| && IsBlank(lines[r])
  {
    var front := lines[..|lines| - 1];
    if IsBlank(lines[|lines| - 1]) && k == BlankCount(front) then |lines| - 1 else BlankAt(front, k)
  }

  /** Where group `k` begins: at the start, or just after the blank line before it. */
  function GroupStart(lines: seq<string>, k: nat): nat
    requires k <= BlankCount(lines)
  {
    if k == 0 then 0 else BlankAt(lines, k - 1) + 1
  }

  /** The groups, read off the lines: group `k` holds the numbers between its two blank lines. */
  predicate GroupsAre(lines: seq<string>, state: (seq<seq<int>>, seq<int>))
  {
    && |state.0| == BlankCount(lines)
    && (forall k :: 0 <= k < |state.0| ==>
          GroupStart(lines, k) <= BlankAt(lines, k)
          && state.0[k] == Numbers(lines[GroupStart(lines, k)..BlankAt(lines, k)]))
    && GroupStart(lines, |state.0|) <= |lines|
    && state.1 == Numbers(lines[GroupStart(lines, |state.0|)..])
  }

  lemma NumbersSnoc(xs: seq<string>, line: string)
    ensures Numbers(xs + [line]) == Numbers(xs) + LineNumbers(line)
  {
    assert (xs + [line])[..|xs|] == xs;
  }

  lemma BlankCountSnoc(front: seq<string>, line: string)
    ensures BlankCount(front + [line]) == BlankCount(front) + (if IsBlank(line) then 1 else 0)
  {
    assert (front + [line])[..|front|] == front;
  }

  /** Adding a line does not move the blank lines before it. */
  lemma BlankAtSnoc(front: seq<string>, line: string, k: nat)
    requires k < BlankCount(front)
    ensures BlankCount(front + [line]) == BlankCount(front) + (if IsBlank(line) then 1 else 0)
    ensures BlankAt(front + [line], k) == BlankAt(front, k)
    ensures GroupStart(front + [line], k) == GroupStart(front, k)
  {
    assert (front + [line])[..|front|] == front;
  }

  lemma SliceSnoc(front: seq<string>, line: string, a: nat, b: nat)
    requires a <= b < |front|
    ensures (front + [line])[a..b] == front[a..b]
  {
  }

  /** A closed group of `front` is unchanged by one more line. */
  lemma ClosedGroupStep(front: seq<string>, line: string, group: seq<int>, k: nat)
    requires k < BlankCount(front) && GroupStart(front, k) <= BlankAt(front, k)
    requires group == Numbers(front[GroupStart(front, k)..BlankAt(front, k)])
    ensures k < BlankCount(front + [line])
    ensures GroupStart(front + [line], k) <= BlankAt(front + [line], k)
            && group == Numbers((front + [line])[GroupStart(front + [line], k)..BlankAt(front + [line], k)])
  {
    BlankAtSnoc(front, line, k);
    if k > 0 {
      BlankAtSnoc(front, line, k - 1);
    }
    SliceSnoc(front, line, GroupStart(front, k), BlankAt(front, k));
  }

  lemma OpenSnoc(front: seq<string>, line: string, s: nat)
    requires s <= |front|
    ensures Numbers((front + [line])[s..]) == Numbers(front[s..]) + LineNumbers(line)
  {
    assert (front + [line])[s..] == front[s..] + [line];
    NumbersSnoc(front[s..], line);
  }

  /** A blank line closes the open group at its own position. */
  lemma GroupsStepBlank(front: seq<string>, line: string, state: (seq<seq<int>>, seq<int>))
    requires GroupsAre(front, state) && IsBlank(line)
    ensures GroupsAre(front + [line], (state.0 + [state.1], []))
  {
    var lines := front + [line];
    var closed := state.0 + [state.1];
    var m := BlankCount(front);
    BlankCountSnoc(front, line);
    if m > 0 {
      BlankAtSnoc(front, line, m - 1);
    }
    var s := GroupStart(front, m);
    assert GroupStart(lines, m) == s;
    assert lines[..|lines| - 1] == front;
    assert BlankAt(lines, m) == |front|;
    assert lines[s..|front|] == front[s..];
    forall k | 0 <= k < |closed|
      ensures GroupStart(lines, k) <= BlankAt(lines, k)
              && closed[k] == Numbers(lines[GroupStart(lines, k)..BlankAt(lines, k)])
    {
      if k < m {
        ClosedGroupStep(front, line, state.0[k], k);
      }
    }
    assert GroupStart(lines, m + 1) == |lines|;
    assert lines[|lines|..] == [];
  }

  /** A number line joins the open group and leaves the closed ones where they are. */
  lemma GroupsStepNumber(front: seq<string>, line: string, state: (seq<seq<int>>, seq<int>))
    requires GroupsAre(front, state) && !IsBlank(line)
    ensures GroupsAre(front + [line], (state.0, state.1 + LineNumbers(line)))
  {
    var lines := front + [line];
    var m := BlankCount(front);
    BlankCountSnoc(front, line);
    if m > 0 {
      BlankAtSnoc(front, line, m - 1);
    }
    var s := GroupStart(front, m);
    assert GroupStart(lines, m) == s;
    forall k | 0 <= k < m
      ensures GroupStart(lines, k) <= BlankAt(lines, k)
              && state.0[k] == Numbers(lines[GroupStart(lines, k)..BlankAt(lines, k)])
    {
      ClosedGroupStep(front, line, state.0[k], k);
    }
    OpenSnoc(front, line, s);
  }

  /** One more line keeps the groups in step with the blank lines. */
  lemma GroupsStep(front: seq<string>, line: string, state: (seq<seq<int>>, seq<int>))
    requires GroupsAre(front, state) && Step(state, line).Ok?
    ensures GroupsAre(front + [line], Step(state, line).value)
  {
    StepMeaning(state, line);
    if IsBlank(line) {
      GroupsStepBlank(front, line, state);
    } else {
      GroupsStepNumber(front, line, state);
    }
  }

  /**
   * Every number lands, in order, in a closed group or in the open one, and
   * each blank line closes exactly one group, empty or not.
   */
  lemma {:induction false} GroupingMeaning(lines: seq<string>)
    requires Grouping(lines).Ok?
    ensures var state := Grouping(lines).value;
            Flatten(state.0) + state.1 == Numbers(lines) && |state.0| == BlankCount(lines)
  {
    if lines != [] {
      var front := lines[..|lines| - 1];
      GroupingMeaning(front);
      GroupingStep(lines);
      StepMeaning(Grouping(front).value, lines[|lines| - 1]);
    }
  }

  /**
   * Closed group `k` holds the numbers between blank lines `k - 1` and `k`,
   * and the open group the numbers after the last blank line.
   */
  lemma {:induction false} GroupingGroups(lines: seq<string>)
    requires Grouping(lines).Ok?
    ensures GroupsAre(lines, Grouping(lines).value)
  {
    if lines == [] {
      assert lines[0..] == [];
    } else {
      var front, line := lines[..|lines| - 1], lines[|lines| - 1];
      assert front + [line] == lines;
      GroupingGroups(front);
      GroupingStep(lines);
      GroupsStep(front, line, Grouping(front).value);
    }
  }

  /** Lines from `i` on that are all numbers close no group. */
  lemma {:induction false} NumbersKeepClosed(lines: seq<string>, i: nat)
    requires i <= |lines| && Grouping(lines).Ok?
    requires forall k :: i <= k < |lines| ==> !IsBlank(lines[k])
    ensures Grouping(lines[..i]).Ok? && Grouping(lines).value.0 == Grouping(lines[..i]).value.0
    decreases |lines|
  {
    if i == |lines| {
      assert lines[..i] == lines;
    } else {
      var front := lines[..|lines| - 1];
      assert front[..i] == lines[..i];
      GroupingPrefixOk(lines, |lines| - 1);
      NumbersKeepClosed(front, i);
      StepKeepsClosed(Grouping(front).value, lines[|lines| - 1]);
    }
  }

  /** A last group without a blank line after it is not among the elves. */
  lemma UnclosedGroupDropped(lines: seq<string>, numbers: seq<string>)
    requires Grouping(lines + numbers).Ok?
    requires forall k :: 0 <= k < |numbers| ==> !IsBlank(numbers[k])
    ensures Elves(lines).Ok? && Elves(lines + numbers) == Elves(lines)
  {
    var all := lines + numbers;
    assert all[..|lines|] == lines;
    assert forall k :: |lines| <= k < |all| ==> all[k] == numbers[k - |lines|];
    NumbersKeepClosed(all, |lines|);
  }

  lemma {:induction false} GroupingPrefixOk(lines: seq<string>, i: nat)
    requires i <= |lines| && Grouping(lines).Ok?
    ensures Grouping(lines[..i]).Ok?
  {
    if Grouping(lines[..i]).Err? {
      GroupingFailsOnward(lines, i);
    }
  }

  function GroupSum(g: seq<int>): int
  {
    Sum(g)
  }

  /** `get_max_cal_elf` on given groups: the sum of the last group after sorting by sum. */
  function MaxCalElf(elves: seq<seq<int>>): Result<int>
  {
    var sorted := SortBy(elves, GroupSum);
    if sorted == [] then Err(IndexError) else Ok(Sum(sorted[|sorted| - 1]))
  }

  /** The answer is the largest group sum; with no group at all it fails. */
  lemma MaxCalElfMeaning(elves: seq<seq<int>>)
    ensures MaxCalElf(elves).Err? <==> elves == []
    ensures MaxCalElf(elves).Ok? ==>
              (exists k :: 0 <= k < |elves| && Sum(elves[k]) == MaxCalElf(elves).value)
              && forall k :: 0 <= k < |elves| ==> Sum(elves[k]) <= MaxCalElf(elves).value
  {
    var sorted := SortBy(elves, GroupSum);
    SortBySorted(elves, GroupSum);
    if sorted != [] {
      var top := sorted[|sorted| - 1];
      assert top in multiset(sorted);
      assert top in elves;
      forall k | 0 <= k < |elves|
        ensures Sum(elves[k]) <= Sum(top)
      {
        assert elves[k] in multiset(sorted);
        var i :| 0 <= i < |sorted| && sorted[i] == elves[k];
        if i < |sorted| - 1 {
          assert GroupSum(sorted[i]) <= GroupSum(sorted[|sorted| - 1]);
        }
      }
    }
  }
}
