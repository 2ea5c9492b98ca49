/**
 * Rucksack priorities: the item both compartments of a rucksack share, and
 * the badge all three rucksacks of a group share.
 */
module Day3 {
  import opened Wrappers
  import opened PyOps
  import Text

  predicate IsUpper(c: char)
  {
    'A' <= c <= 'Z'
  }

  predicate IsLetter(c: char)
  {
    'a' <= c <= 'z' || IsUpper(c)
  }

  /** `str.lower` on one ASCII character. */
  function Lower(c: char): (r: char)
    ensures IsUpper(c) ==> 'a' <= r <= 'z' && r as int == c as int + 32
    ensures !IsUpper(c) ==> r == c
  {
    if IsUpper(c) then (c as int + 32) as char else c
  }

  /** `get_priority`. */
  function Priority(item: char): int
  {
    Lower(item) as int - 'a' as int + 26 * (if IsUpper(item) then 1 else 0) + 1
  }

  /** Lower-case letters come first, 1 to 26, then upper-case ones, 27 to 52. */
  lemma PriorityRanges(item: char)
    ensures 'a' <= item <= 'z' ==> Priority(item) == item as int - 'a' as int + 1 && 1 <= Priority(item) <= 26
    ensures IsUpper(item) ==> Priority(item) == item as int - 'A' as int + 27 && 27 <= Priority(item) <= 52
  {
  }

  /** No two letters share a priority. */
  lemma PriorityInjective(c: char, d: char)
    requires IsLetter(c) && IsLetter(d) && Priority(c) == Priority(d)
    ensures c == d
  {
    PriorityRanges(c);
    PriorityRanges(d);
  }

  /** The two compartments of a rucksack: `line[:len // 2]` and `line[len // 2:]`. */
  function Halves(line: string): (h: (string, string))
    ensures h.0 + h.1 == line
    ensures |h.0| == |line| / 2 && (|h.1| == |h.0| || |h.1| == |h.0| + 1)
  {
    (line[..|line| / 2], line[|line| / 2..])
  }

  /** `set(a).intersection(set(b))`. */
  function SharedItems(a: string, b: string): (r: set<char>)
    ensures forall c :: c in r <==> c in a && c in b
  {
    Text.CharSet(a) * Text.CharSet(b)
  }

  /** `next(iter(s))`: some element of the set; an empty set stops the iteration. */
  ghost function Pick(s: set<char>): (r: Result<char>)
    ensures r.Err? <==> s == {}
    ensures r.Err? ==> r.error == StopIteration
    ensures r.Ok? ==> r.value in s
  {
    if s == {} then Err(StopIteration) else var c :| c in s; Ok(c)
  }

  /** A one-element set leaves `next(iter(...))` no choice. */
  lemma PickSingleton(c: char)
    ensures Pick({c}) == Ok(c)
  {
  }

  /** `sum` over a generator that may raise: the first exception, else the total. */
  function SumResults(rs: seq<Result<int>>): (r: Result<int>)
    ensures r.Err? <==> exists k :: 0 <= k < |rs| && rs[k].Err?
    ensures r.Err? ==> exists k :: 0 <= k < |rs| && rs[k] == Err(r.error)
  {
    if rs == [] then Ok(0)
    else
      var front := rs[..|rs| - 1];
      assert forall k :: 0 <= k < |front| ==> front[k] == rs[k];
      match SumResults(front)
      case Err(e) => Err(e)
      case Ok(t) =>
        match rs[|rs| - 1]
        case Err(e) => Err(e)
        case Ok(v) => Ok(t + v)
  }

  lemma {:induction false} SumResultsOk(rs: seq<Result<int>>, vs: seq<int>)
    requires |rs| == |vs| && forall k :: 0 <= k < |rs| ==> rs[k] == Ok(vs[k])
    ensures SumResults(rs) == Ok(Sum(vs))
  {
    if rs != [] {
      SumResultsOk(rs[..|rs| - 1], vs[..|vs| - 1]);
    }
  }

  /**
   * An exception that leaves a generator's frame: `StopIteration` is turned
   * into `RuntimeError` (PEP 479), any other passes unchanged.
   */
  function LeaveGenerator(r: Result<int>): (q: Result<int>)
    ensures q.Ok? <==> r.Ok?
    ensures q.Ok? ==> q == r
    ensures q.Err? ==> q.error != StopIteration
  {
    match r
    case Ok(v) => Ok(v)
    case Err(StopIteration) => Err(RuntimeError)
    case Err(e) => Err(e)
  }

  /** The item the two compartments share, scored. */
  ghost function PackScore(line: string): Result<int>
  {
    var h := Halves(line);
    match Pick(SharedItems(h.0, h.1))
    case Err(e) => Err(e)
    case Ok(c) => Ok(Priority(c))
  }

  /** `get_part_1` on given lines. */
  ghost function Part1(lines: seq<string>): Result<int>
  {
    LeaveGenerator(SumResults(seq(|lines|, k requires 0 <= k < |lines| => PackScore(lines[k]))))
  }

  /**
   * When each rucksack's compartments share exactly one item, part 1 is the
   * sum of those items' priorities; a rucksack sharing none stops it.
   */
  lemma Part1Meaning(lines: seq<string>, items: seq<char>)
    requires |items| == |lines|
    requires forall k :: 0 <= k < |lines| ==> SharedItems(Halves(lines[k]).0, Halves(lines[k]).1) == {items[k]}
    ensures Part1(lines) == Ok(Sum(seq(|items|, k requires 0 <= k < |items| => Priority(items[k]))))
  {
    var rs := seq(|lines|, k requires 0 <= k < |lines| => PackScore(lines[k]));
    var vs := seq(|items|, k requires 0 <= k < |items| => Priority(items[k]));
    forall k | 0 <= k < |lines|
      ensures rs[k] == Ok(vs[k])
    {
      PickSingleton(items[k]);
    }
    SumResultsOk(rs, vs);
  }

  /**
   * A rucksack whose compartments share nothing makes `next` raise
   * `StopIteration` inside the generator, which `sum` sees as `RuntimeError`.
   */
  lemma Part1Stops(lines: seq<string>, k: nat)
    requires k < |lines| && SharedItems(Halves(lines[k]).0, Halves(lines[k]).1) == {}
    ensures Part1(lines) == Err(RuntimeError)
  {
    var rs := seq(|lines|, k requires 0 <= k < |lines| => PackScore(lines[k]));
    assert rs[k].Err?;
    assert forall j :: 0 <= j < |rs| && rs[j].Err? ==> rs[j].error == StopIteration;
  }

  /** The empty last line that `split("\n")` leaves after a final newline is such a rucksack. */
  lemma Part1TrailingNewline(lines: seq<string>)
    requires lines != [] && lines[|lines| - 1] == ""
    ensures Part1(lines) == Err(RuntimeError)
  {
    assert SharedItems(Halves("").0, Halves("").1) == {};
    Part1Stops(lines, |lines| - 1);
  }

  // ------------------------------------------------------------------ part 2

  /** `load_outs[k : k + 3]` for `k` in `range(0, len, 3)`. */
  function Groups<T>(xs: seq<T>): (gs: seq<seq<T>>)
    ensures forall i :: 0 <= i < |gs| ==> 0 < |gs[i]| <= 3
    ensures forall i :: 0 <= i < |gs| - 1 ==> |gs[i]| == 3
    decreases |xs|
  {
    if xs == [] then [] else if |xs| <= 3 then [xs] else [xs[..3]] + Groups(xs[3..])
  }

  function Flatten<T>(gs: seq<seq<T>>): seq<T>
  {
    if gs == [] then [] else gs[0] + Flatten(gs[1..])
  }

  /** The groups are consecutive lines in threes: joined back they give the lines. */
  lemma {:induction false} GroupsCover<T>(xs: seq<T>)
    ensures Flatten(Groups(xs)) == xs
    decreases |xs|
  {
    if |xs| > 3 {
      GroupsCover(xs[3..]);
      var gs := Groups(xs);
      assert gs[1..] == Groups(xs[3..]);
      assert xs == xs[..3] + xs[3..];
    } else if xs != [] {
      assert Groups(xs)[1..] == [];
    }
  }

  /** `reduce(set.intersection, [set(elf) for elf in group])`. */
  function CommonItems(group: seq<string>): (r: set<char>)
    requires |group| > 0
    ensures forall c :: c in r <==> forall k :: 0 <= k < |group| ==> c in group[k]
  {
    if |group| == 1 then Text.CharSet(group[0])
    else
      var front := group[..|group| - 1];
      assert forall k :: 0 <= k < |front| ==> front[k] == group[k];
      CommonItems(front) * Text.CharSet(group[|group| - 1])
  }

  ghost function GroupScore(group: seq<string>): Result<int>
    requires |group| > 0
  {
    match Pick(CommonItems(group))
    case Err(e) => Err(e)
    case Ok(c) => Ok(Priority(c))
  }

  /** `get_part_2` on given lines. */
  ghost function Part2(lines: seq<string>): Result<int>
  {
    var gs := Groups(lines);
    LeaveGenerator(SumResults(seq(|gs|, k requires 0 <= k < |gs| => GroupScore(gs[k]))))
  }

  /**
   * When each group of three shares exactly one badge item, part 2 is the
   * sum of the badges' priorities.
   */
  lemma Part2Meaning(lines: seq<string>, badges: seq<char>)
    requires |badges| == |Groups(lines)|
    requires forall k :: 0 <= k < |badges| ==> CommonItems(Groups(lines)[k]) == {badges[k]}
    ensures Part2(lines) == Ok(Sum(seq(|badges|, k requires 0 <= k < |badges| => Priority(badges[k]))))
  {
    var gs := Groups(lines);
    var rs := seq(|gs|, k requires 0 <= k < |gs| => GroupScore(gs[k]));
    var vs := seq(|badges|, k requires 0 <= k < |badges| => Priority(badges[k]));
    forall k | 0 <= k < |gs|
      ensures rs[k] == Ok(vs[k])
    {
      PickSingleton(badges[k]);
    }
    SumResultsOk(rs, vs);
  }

  /** A group of elves with no common item fails part 2 the same way. */
  lemma Part2Stops(lines: seq<string>, k: nat)
    requires k < |Groups(lines)| && CommonItems(Groups(lines)[k]) == {}
    ensures Part2(lines) == Err(RuntimeError)
  {
    var gs := Groups(lines);
    var rs := seq(|gs|, k requires 0 <= k < |gs| => GroupScore(gs[k]));
    assert rs[k].Err?;
    assert forall j :: 0 <= j < |rs| && rs[j].Err? ==> rs[j].error == StopIteration;
  }
}
