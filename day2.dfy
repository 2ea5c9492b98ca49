/**
 * Rock-paper-scissors scores from a strategy guide: A/B/C is the elf's
 * shape, X/Y/Z either my shape (part 1) or the outcome I must reach (part 2).
 */
module Day2 {
  import opened Wrappers
  import opened Text

  /** `PLAY_D`: the value of a shape, rock 1, paper 2, scissors 3, for either letter set. */
  const PlayD: map<char, int> := map['X' := 1, 'Y' := 2, 'Z' := 3, 'A' := 1, 'B' := 2, 'C' := 3]

  /** `WIN_D`: the pairs (my shape, elf's shape) that I win. */
  const WinD: set<(int, int)> := {(1, 3), (2, 1), (3, 2)}

  function Points(b: bool): int
  {
    if b then 1 else 0
  }

  /** The rule of the game: a shape beats the one just before it, cyclically. */
  predicate Beats(me: int, elf: int)
  {
    (me - elf) % 3 == 1
  }

  /**
   * `WIN_D` is the rule of the game: each shape wins against exactly one
   * other, never against itself, so a win and a draw exclude each other.
   */
  lemma WinDIsTheRule(me: int, elf: int)
    requires 1 <= me <= 3 && 1 <= elf <= 3
    ensures (me, elf) in WinD <==> Beats(me, elf)
    ensures (me, elf) in WinD ==> me != elf && (elf, me) !in WinD
    ensures forall e :: (me, e) in WinD && (me, elf) in WinD ==> e == elf
  {
  }

  /** `round_score`: the elf's letter comes first and mine last; an unknown letter fails. */
  function RoundScore(round: string): (r: Result<int>)
    ensures r.Err? <==> round == [] || round[0] !in PlayD || round[|round| - 1] !in PlayD
    ensures r.Err? ==> r.error == if round == [] then IndexError else KeyError
  {
    if round == [] then Err(IndexError)
    else if round[0] !in PlayD || round[|round| - 1] !in PlayD then Err(KeyError)
    else
      var elf, me := PlayD[round[0]], PlayD[round[|round| - 1]];
      Ok(6 * Points((me, elf) in WinD) + 3 * Points(me == elf) + me)
  }

  /**
   * A round scores my shape's value plus 6 for a win, 3 for a draw and 0 for
   * a loss, so it lies in 1..9.
   */
  lemma RoundScoreMeaning(round: string)
    requires RoundScore(round).Ok?
    ensures var elf, me := PlayD[round[0]], PlayD[round[|round| - 1]];
            var s := RoundScore(round).value;
            1 <= s <= 9
            && (Beats(me, elf) ==> s == me + 6)
            && (me == elf ==> s == me + 3)
            && (Beats(elf, me) ==> s == me)
            && (Beats(me, elf) || me == elf || Beats(elf, me))
  {
    var elf, me := PlayD[round[0]], PlayD[round[|round| - 1]];
    WinDIsTheRule(me, elf);
  }

  /** The sum of the scores of the rounds; the first bad round fails it. */
  function TotalScore(rounds: seq<string>): (r: Result<int>)
    ensures r.Err? <==> exists k :: 0 <= k < |rounds| && RoundScore(rounds[k]).Err?
  {
    if rounds == [] then Ok(0)
    else
      var front := rounds[..|rounds| - 1];
      assert forall k :: 0 <= k < |front| ==> front[k] == rounds[k];
      match TotalScore(front)
      case Err(e) => Err(e)
      case Ok(t) =>
        match RoundScore(rounds[|rounds| - 1])
        case Err(e) => Err(e)
        case Ok(s) => Ok(t + s)
  }

  /** Every round scores between 1 and 9, so the total lies between `n` and `9n` for `n` rounds. */
  lemma {:induction false} TotalScoreBounds(rounds: seq<string>)
    requires TotalScore(rounds).Ok?
    ensures |rounds| <= TotalScore(rounds).value <= 9 * |rounds|
  {
    if rounds != [] {
      TotalScoreBounds(rounds[..|rounds| - 1]);
      RoundScoreMeaning(rounds[|rounds| - 1]);
    }
  }

  /** The strategy guide's lines, stripped as `load_strategy_guide` does. */
  function Guide(lines: seq<string>): (r: seq<string>)
    ensures |r| == |lines| && forall k :: 0 <= k < |lines| ==> r[k] == Strip(lines[k])
  {
    seq(|lines|, k requires 0 <= k < |lines| => Strip(lines[k]))
  }

  /** `get_my_total` on given lines. */
  function MyTotal(lines: seq<string>): Result<int>
  {
    TotalScore(Guide(lines))
  }

  // ------------------------------------------------------------------ part 2

  /** `WIN_D_PT2`: the shape that beats the elf's. */
  const WinPt2: map<char, char> := map['A' := 'B', 'B' := 'C', 'C' := 'A']

  /** `LOSE_D_PT2`: the shape that loses to the elf's, the inverse of `WIN_D_PT2`. */
  const LosePt2: map<char, char> := map['B' := 'A', 'C' := 'B', 'A' := 'C']

  /** `{x: x for x in "ABC"}`. */
  const SamePt2: map<char, char> := map['A' := 'A', 'B' := 'B', 'C' := 'C']

  /** `ACTION_D`: X answers with a losing shape, Y with the same one, Z with a winning one. */
  const ActionD: map<char, map<char, char>> := map['X' := LosePt2, 'Z' := WinPt2, 'Y' := SamePt2]

  /** `LOSE_D_PT2` and `WIN_D_PT2` undo each other. */
  lemma LoseIsInverseOfWin()
    ensures LosePt2.Keys == WinPt2.Keys == {'A', 'B', 'C'}
    ensures forall k :: k in WinPt2 ==> LosePt2[WinPt2[k]] == k
    ensures forall k :: k in LosePt2 ==> WinPt2[LosePt2[k]] == k
  {
  }

  /** `alter_round`: keeps the elf's letter and answers it with the shape `ACTION_D` picks. */
  function AlterRound(round: string): (r: Result<string>)
    ensures r.Err? <==> round == [] || round[|round| - 1] !in ActionD || round[0] !in ActionD[round[|round| - 1]]
    ensures r.Err? ==> r.error == if round == [] then IndexError else KeyError
    ensures r.Ok? ==> |r.value| == 3 && r.value[0] == round[0] && r.value[1] == ' '
                      && r.value[2] == ActionD[round[|round| - 1]][round[0]]
  {
    if round == [] then Err(IndexError)
    else
      var elf, me := round[0], round[|round| - 1];
      if me !in ActionD || elf !in ActionD[me] then Err(KeyError)
      else Ok([elf, ' ', ActionD[me][elf]])
  }

  /** The outcome points the letters X, Y and Z demand: lose, draw, win. */
  function Demanded(me: char): int
  {
    if me == 'X' then 0 else if me == 'Y' then 3 else 6
  }

  /**
   * For an elf letter A/B/C and a demand X/Y/Z, the altered round scores the
   * demanded outcome (0, 3 or 6) plus the value of the chosen shape.
   */
  lemma AlterRoundReachesDemand(round: string)
    requires Demand(round)
    ensures AlterRound(round).Ok?
    ensures var a := AlterRound(round).value;
            RoundScore(a).Ok? && RoundScore(a).value == Demanded(round[|round| - 1]) + PlayD[a[2]]
  {
    var elf, me := round[0], round[|round| - 1];
    LoseIsInverseOfWin();
    assert elf in ActionD[me];
    var a := AlterRound(round).value;
    assert a[0] == elf && a[|a| - 1] == a[2];
    RoundScoreMeaning(a);
  }

  /** `[alter_round(round) for round in ...]`: every round is altered before any is scored. */
  function AlterAll(rounds: seq<string>): (r: Result<seq<string>>)
    ensures r.Err? <==> exists k :: 0 <= k < |rounds| && AlterRound(rounds[k]).Err?
    ensures r.Ok? ==> |r.value| == |rounds| && forall k :: 0 <= k < |rounds| ==> AlterRound(rounds[k]) == Ok(r.value[k])
  {
    if rounds == [] then Ok([])
    else
      var front := rounds[..|rounds| - 1];
      assert forall k :: 0 <= k < |front| ==> front[k] == rounds[k];
      match AlterAll(front)
      case Err(e) => Err(e)
      case Ok(t) =>
        match AlterRound(rounds[|rounds| - 1])
        case Err(e) => Err(e)
        case Ok(a) => Ok(t + [a])
  }

  /** `get_my_total_pt2` on given lines. */
  function MyTotalPt2(lines: seq<string>): Result<int>
  {
    match AlterAll(Guide(lines))
    case Err(e) => Err(e)
    case Ok(altered) => TotalScore(altered)
  }

  /** An elf letter followed, last, by a demand. */
  predicate Demand(round: string)
  {
    |round| > 0 && round[0] in "ABC" && round[|round| - 1] in "XYZ"
  }

  /** Rounds that are all demands are altered into rounds that all score. */
  lemma AlteredDemandsScore(rounds: seq<string>)
    requires forall k :: 0 <= k < |rounds| ==> Demand(rounds[k])
    ensures AlterAll(rounds).Ok? && TotalScore(AlterAll(rounds).value).Ok?
  {
    forall k | 0 <= k < |rounds|
      ensures AlterRound(rounds[k]).Ok? && RoundScore(AlterRound(rounds[k]).value).Ok?
    {
      AlterRoundReachesDemand(rounds[k]);
    }
  }

  /** A guide whose every round is an elf letter and a demand scores in part 2, within n..9n. */
  lemma MyTotalPt2Defined(lines: seq<string>)
    requires forall k :: 0 <= k < |lines| ==> Demand(Strip(lines[k]))
    ensures MyTotalPt2(lines).Ok?
    ensures |lines| <= MyTotalPt2(lines).value <= 9 * |lines|
  {
    var g := Guide(lines);
    AlteredDemandsScore(g);
    TotalScoreBounds(AlterAll(g).value);
  }
}
