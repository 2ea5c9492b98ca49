/**
 * The CPU signal trace: two entries per cycle, the register's value at the
 * start of the cycle (even index) and at its end (odd index).
 */
module Day10 {
  import opened Wrappers
  import opened PyOps
  import opened Text

  /** An instruction line: `noop`, `addx <n>`, or anything else (ignored). */
  datatype Instr = Noop | Addx(n: int) | Other

  /** The match on `instruction.split()`; an `addx` operand that is not an integer fails. */
  function ParseInstr(line: string): (r: Result<Instr>)
    ensures r.Err? ==> r.error == ValueError
  {
    var ws := Words(line);
    if ws == ["noop"] then Ok(Noop)
    else if |ws| == 2 && ws[0] == "addx" then
      match ParseInt(ws[1])
      case None => Err(ValueError)
      case Some(n) => Ok(Addx(n))
    else Ok(Other)
  }

  /**
   * One instruction's effect on the trace: `noop` repeats the last value
   * twice (one cycle), `addx n` repeats it three times and then adds `n`
   * (two cycles), anything else adds nothing.
   */
  function Extend(signal: seq<int>, i: Instr): (r: seq<int>)
    requires |signal| > 0
    ensures |r| > |signal| ==> r[..|signal|] == signal
  {
    var last := signal[|signal| - 1];
    match i
    case Noop => signal + [last, last]
    case Addx(n) => signal + [last, last, last, last + n]
    case Other => signal
  }

  /** The trace of a whole program, in order; the first bad operand fails it. */
  function Signal(program: seq<string>): (r: Result<seq<int>>)
    ensures r.Ok? ==> |r.value| >= 2
  {
    if program == [] then Ok([1, 1])
    else
      match Signal(program[..|program| - 1])
      case Err(e) => Err(e)
      case Ok(s) =>
        match ParseInstr(program[|program| - 1])
        case Err(e) => Err(e)
        case Ok(i) => Ok(Extend(s, i))
  }

  /** `get_signal`: extends the trace in place, instruction by instruction. */
  method GetSignal(program: seq<string>) returns (r: Result<seq<int>>)
    ensures r == Signal(program)
  {
    var signal := [1, 1];
    for k := 0 to |program|
      invariant Signal(program[..k]) == Ok(signal)
    {
      var prefix := program[..k + 1];
      assert prefix[..k] == program[..k] && prefix[k] == program[k];
      var ins := ParseInstr(program[k]);
      if ins.Err? {
        SignalFailsOnward(program, k + 1);
        return Err(ValueError);
      }
      signal := Extend(signal, ins.value);
    }
    assert program[..|program|] == program;
    return Ok(signal);
  }

  /** A failure on some line fails every longer program. */
  lemma {:induction false} SignalFailsOnward(program: seq<string>, i: nat)
    requires i <= |program| && Signal(program[..i]).Err?
    ensures Signal(program) == Err(ValueError)
    decreases |program|
  {
    if i == |program| {
      assert program[..i] == program;
      SignalErrorIsValueError(program);
    } else {
      var front := program[..|program| - 1];
      assert front[..i] == program[..i];
      SignalFailsOnward(front, i);
    }
  }

  lemma {:induction false} SignalErrorIsValueError(program: seq<string>)
    ensures Signal(program).Err? ==> Signal(program).error == ValueError
  {
    if program != [] {
      var front := program[..|program| - 1];
      SignalErrorIsValueError(front);
      assert Signal(program).Err? ==> Signal(front).Err? || ParseInstr(program[|program| - 1]).Err?;
    }
  }

  /** The sum of the `addx` operands of a program whose operands all parse. */
  function AddxTotal(program: seq<string>): int
  {
    if program == [] then 0
    else
      var i := ParseInstr(program[|program| - 1]);
      AddxTotal(program[..|program| - 1]) + (if i.Ok? && i.value.Addx? then i.value.n else 0)
  }

  /** What one instruction keeps: the opening [1, 1], an even length, and the running total. */
  lemma ExtendShape(s: seq<int>, i: Instr)
    requires |s| >= 2 && s[..2] == [1, 1] && |s| % 2 == 0
    ensures var t := Extend(s, i);
            t[..2] == [1, 1] && |t| % 2 == 0
            && t[|t| - 1] == s[|s| - 1] + (if i.Addx? then i.n else 0)
  {
    var t := Extend(s, i);
    assert t[..|s|][..2] == t[..2];
  }

  /**
   * The trace starts with [1, 1] and always has an even length (two entries
   * per cycle), and its last entry is 1 plus the sum of all `addx` operands.
   */
  lemma {:induction false} SignalShape(program: seq<string>)
    requires Signal(program).Ok?
    ensures var s := Signal(program).value;
            s[..2] == [1, 1] && |s| % 2 == 0 && s[|s| - 1] == 1 + AddxTotal(program)
  {
    if program != [] {
      var front := program[..|program| - 1];
      SignalShape(front);
      var ins := ParseInstr(program[|program| - 1]);
      assert Signal(program) == Ok(Extend(Signal(front).value, ins.value));
      assert AddxTotal(program) == AddxTotal(front) + (if ins.value.Addx? then ins.value.n else 0);
      ExtendShape(Signal(front).value, ins.value);
    }
  }

  /** The entry at the start of a cycle repeats the end of the cycle before it. */
  lemma {:induction false} SignalOnlyChangesAtCycleEnd(program: seq<string>, k: nat)
    requires Signal(program).Ok? && 0 < k < |Signal(program).value| && k % 2 == 0
    ensures Signal(program).value[k] == Signal(program).value[k - 1]
  {
    if program != [] {
      var front := program[..|program| - 1];
      var s := Signal(front).value;
      var i := ParseInstr(program[|program| - 1]).value;
      var t := Extend(s, i);
      assert Signal(program).value == t;
      if k < |s| {
        SignalOnlyChangesAtCycleEnd(front, k);
        ExtendKeepsPrefix(s, i, k);
      } else {
        SignalShape(front);
        ExtendKeepsCycleStarts(s, i, k);
      }
    }
  }

  lemma ExtendKeepsPrefix(s: seq<int>, i: Instr, k: nat)
    requires 0 < k < |s|
    ensures Extend(s, i)[k] == s[k] && Extend(s, i)[k - 1] == s[k - 1]
  {
  }

  lemma ExtendKeepsCycleStarts(s: seq<int>, i: Instr, k: nat)
    requires |s| >= 2 && |s| % 2 == 0
    requires |s| <= k < |Extend(s, i)| && k % 2 == 0
    ensures Extend(s, i)[k] == Extend(s, i)[k - 1]
  {
  }

  // ---------------------------------------------------------- signal strength

  /** Python's `range(start, stop, step)` for a non-zero step. */
  function PyRange(start: int, stop: int, step: int): (r: seq<int>)
    requires step != 0
    decreases if step > 0 then stop - start else start - stop
  {
    if (step > 0 && start < stop) || (step < 0 && start > stop) then [start] + PyRange(start + step, stop, step)
    else []
  }

  /** The range in `signal_strength` has exactly `cycles` elements, `step` apart. */
  lemma {:induction false} CycleRange(start: int, step: int, cycles: int)
    requires step != 0
    ensures PyRange(start, start + step * cycles, step) == seq(Max(cycles, 0), k => start + k * step)
    decreases Max(cycles, 0)
  {
    if cycles > 0 {
      assert start + step * cycles == (start + step) + step * (cycles - 1);
      CycleRange(start + step, step, cycles - 1);
      var s := seq(cycles, k => start + k * step);
      var t := seq(Max(cycles - 1, 0), k => (start + step) + k * step);
      assert s == [start] + t by {
        forall k | 0 < k < cycles
          ensures s[k] == t[k - 1]
        {
          assert start + k * step == (start + step) + (k - 1) * step;
        }
      }
    } else if step > 0 {
      assert step * cycles <= 0 by { MulSign(step, cycles); }
    } else {
      assert step * cycles >= 0 by { MulSign(-step, cycles); }
    }
  }

  lemma MulSign(a: int, b: int)
    requires a > 0 && b <= 0
    ensures a * b <= 0
  {
    assert a * b == -(a * (-b));
  }

  /** The sum of `c * signal[2 * c]` over the given cycles, with Python's indexing. */
  function Strength(signal: seq<int>, cs: seq<int>): (r: Result<int>)
    ensures r.Err? <==> exists k :: 0 <= k < |cs| && PyIndex(signal, 2 * cs[k]).None?
  {
    if cs == [] then Ok(0)
    else
      var c := cs[|cs| - 1];
      var front := Strength(signal, cs[..|cs| - 1]);
      assert forall k :: 0 <= k < |cs| - 1 ==> cs[..|cs| - 1][k] == cs[k];
      match PyIndex(signal, 2 * c)
      case None => Err(IndexError)
      case Some(v) => if front.Err? then front else Ok(front.value + c * v)
  }

  /** `signal_strength`: a zero step fails as `range` does. */
  function SignalStrength(signal: seq<int>, startCycle: int, cycleStep: int, cycles: int): Result<int>
  {
    if cycleStep == 0 then Err(ValueError)
    else Strength(signal, PyRange(startCycle, startCycle + cycleStep * cycles, cycleStep))
  }

  /**
   * With a positive step and the last sampled cycle inside the trace, the
   * strength is defined and adds up `c * signal[2c]` over the cycles
   * `start + k * step`.
   */
  lemma StrengthOfSampledCycles(signal: seq<int>, start: int, step: int, cycles: nat)
    requires start >= 0 && step > 0
    requires cycles > 0 ==> 2 * (start + (cycles - 1) * step) < |signal|
    ensures SignalStrength(signal, start, step, cycles).Ok?
    ensures SignalStrength(signal, start, step, cycles).value
         == SampledSum(signal, seq(cycles, k => start + k * step))
  {
    var cs := seq(cycles, k => start + k * step);
    SampledInTrace(signal, start, step, cycles, cs);
    calc {
      SignalStrength(signal, start, step, cycles);
      Strength(signal, PyRange(start, start + step * cycles, step));
      { CycleRange(start, step, cycles); }
      Strength(signal, cs);
      { StrengthIsSampledSum(signal, cs); }
      Ok(SampledSum(signal, cs));
    }
  }

  /** Every sampled cycle up to the last one stays inside the trace. */
  lemma SampledInTrace(signal: seq<int>, start: int, step: int, cycles: nat, cs: seq<int>)
    requires start >= 0 && step > 0
    requires cycles > 0 ==> 2 * (start + (cycles - 1) * step) < |signal|
    requires |cs| == cycles && forall k :: 0 <= k < |cs| ==> cs[k] == start + k * step
    ensures forall k :: 0 <= k < |cs| ==> 0 <= 2 * cs[k] < |signal|
  {
    forall k | 0 <= k < |cs|
      ensures 0 <= 2 * cs[k] < |signal|
    {
      MulNonNegative(k, step);
      MulMonotone(k, cycles - 1, step);
    }
  }

  lemma MulMonotone(a: int, b: int, c: int)
    requires a <= b && c >= 0
    ensures a * c <= b * c
  {
    assert b * c - a * c == (b - a) * c;
    MulNonNegative(b - a, c);
  }

  lemma MulNonNegative(a: int, b: int)
    requires a >= 0 && b >= 0
    ensures a * b >= 0
  {
  }

  /** The plain sum `c * signal[2c]` over cycles whose entries are all in the trace. */
  function SampledSum(signal: seq<int>, cs: seq<int>): int
    requires forall k :: 0 <= k < |cs| ==> 0 <= 2 * cs[k] < |signal|
  {
    if cs == [] then 0 else SampledSum(signal, cs[..|cs| - 1]) + cs[|cs| - 1] * signal[2 * cs[|cs| - 1]]
  }

  lemma {:induction false} StrengthIsSampledSum(signal: seq<int>, cs: seq<int>)
    requires forall k :: 0 <= k < |cs| ==> 0 <= 2 * cs[k] < |signal|
    ensures Strength(signal, cs) == Ok(SampledSum(signal, cs))
  {
    if cs != [] {
      StrengthIsSampledSum(signal, cs[..|cs| - 1]);
    }
  }
}
