/** Section-assignment pairs: does one range contain the other, do they overlap? */
module Day4 {
  import opened Wrappers
  import opened PyOps
  import opened Text

  /** `[int(l) for l in fields]`: the first field that is not an integer fails. */
  function Ints(fields: seq<string>): (r: Result<seq<int>>)
    ensures r.Err? ==> r.error == ValueError
    ensures r.Ok? ==> |r.value| == |fields|
  {
    if fields == [] then Ok([])
    else
      var last := ParseInt(fields[|fields| - 1]);
      match Ints(fields[..|fields| - 1])
      case Err(e) => Err(e)
      case Ok(ns) => if last.None? then Err(ValueError) else Ok(ns + [last.value])
  }

  /** Each number is the value of its field. */
  lemma {:induction false} IntsMeaning(fields: seq<string>, k: nat)
    requires Ints(fields).Ok? && k < |fields|
    ensures ParseInt(fields[k]) == Some(Ints(fields).value[k])
  {
    if k < |fields| - 1 {
      IntsMeaning(fields[..|fields| - 1], k);
    }
  }

  /** A field that is not an integer fails the whole line. */
  lemma {:induction false} IntsFail(fields: seq<string>, k: nat)
    requires k < |fields| && ParseInt(fields[k]).None?
    ensures Ints(fields) == Err(ValueError)
  {
    if k < |fields| - 1 {
      IntsFail(fields[..|fields| - 1], k);
    }
  }

  /** One line of `load_data`: the dash-separated numbers of the first two comma-separated parts. */
  function ParseLine(line: string): (r: Result<seq<int>>)
    ensures r.Err? ==> r.error == IndexError || r.error == ValueError
    ensures r.Ok? ==> |r.value| >= 2
    ensures SplitOn(line, ",") == [line] ==> r == Err(IndexError)
  {
    var parts := SplitOn(line, ",");
    if |parts| < 2 then Err(IndexError)
    else Ints(SplitOn(parts[0], "-") + SplitOn(parts[1], "-"))
  }

  /** `load_data` on given lines: every line is parsed before anything is counted. */
  function Ranges(lines: seq<string>): (r: Result<seq<seq<int>>>)
    ensures r.Ok? ==> |r.value| == |lines| && forall k :: 0 <= k < |lines| ==> |r.value[k]| >= 2
  {
    if lines == [] then Ok([])
    else
      match Ranges(lines[..|lines| - 1])
      case Err(e) => Err(e)
      case Ok(rs) =>
        match ParseLine(lines[|lines| - 1])
        case Err(e) => Err(e)
        case Ok(r) => Ok(rs + [r])
  }

  /** Each pair is what its line parses to. */
  lemma {:induction false} RangesMeaning(lines: seq<string>, k: nat)
    requires Ranges(lines).Ok? && k < |lines|
    ensures ParseLine(lines[k]) == Ok(Ranges(lines).value[k])
  {
    if k < |lines| - 1 {
      RangesMeaning(lines[..|lines| - 1], k);
    }
  }

  lemma FindAbsent(s: string, c: char)
    requires c !in s
    ensures Find(s, [c]) == None
    decreases |s|
  {
    if |s| >= 1 {
      assert s[..1] == [s[0]];
      FindAbsent(s[1..], c);
    }
  }

  lemma {:induction false} FindFirst(x: string, c: char, y: string)
    requires c !in x
    ensures Find(x + [c] + y, [c]) == Some(|x|)
    decreases |x|
  {
    var s := x + [c] + y;
    if x == [] {
      assert s[..1] == [c];
    } else {
      assert s[..1] == [x[0]];
      assert s[1..] == x[1..] + [c] + y;
      FindFirst(x[1..], c, y);
    }
  }

  lemma SplitAbsent(s: string, c: char)
    requires c !in s
    ensures SplitOn(s, [c]) == [s]
  {
    FindAbsent(s, c);
  }

  lemma SplitFirst(x: string, c: char, y: string)
    requires c !in x
    ensures SplitOn(x + [c] + y, [c]) == [x] + SplitOn(y, [c])
  {
    var s := x + [c] + y;
    FindFirst(x, c, y);
    assert s[..|x|] == x && s[|x| + 1..] == y;
  }

  lemma SplitHalf(a: nat, b: nat)
    ensures SplitOn(RangeText(a, b), "-") == [Digits(a), Digits(b)]
    ensures ',' !in RangeText(a, b)
  {
    var da, db := Digits(a), Digits(b);
    assert '-' !in da && '-' !in db;
    assert da + "-" + db == da + ['-'] + db;
    SplitFirst(da, '-', db);
    SplitAbsent(db, '-');
  }

  lemma SplitLine(first: string, second: string)
    requires ',' !in first && ',' !in second
    ensures SplitOn(first + "," + second, ",") == [first, second]
  {
    assert first + "," + second == first + [','] + second;
    SplitFirst(first, ',', second);
    SplitAbsent(second, ',');
  }

  /** The text `a-b` of a range. */
  function RangeText(lo: nat, hi: nat): string
  {
    Digits(lo) + "-" + Digits(hi)
  }

  /** A line `a-b,c-d` of decimal numbers parses to `[a, b, c, d]`. */
  lemma ParseRangePair(a: nat, b: nat, c: nat, d: nat)
    ensures ParseLine(RangeText(a, b) + "," + RangeText(c, d)) == Ok([a, b, c, d])
  {
    var first, second := RangeText(a, b), RangeText(c, d);
    SplitHalf(a, b);
    SplitHalf(c, d);
    SplitLine(first, second);
    var fields := [Digits(a), Digits(b)] + [Digits(c), Digits(d)];
    assert ParseLine(first + "," + second) == Ints(fields);
    DigitFieldsOfFour(a, b, c, d);
    assert fields == [Digits(a), Digits(b), Digits(c), Digits(d)];
    IntsOfDigits([a, b, c, d]);
  }

  lemma DigitFieldsOfFour(a: nat, b: nat, c: nat, d: nat)
    ensures DigitFields([a, b, c, d]) == [Digits(a), Digits(b), Digits(c), Digits(d)]
  {
    var ns := [a, b, c, d];
    assert ns[..3][..2][..1][..0] == [];
    assert DigitFields(ns[..3][..2][..1]) == [Digits(a)];
    assert DigitFields(ns[..3][..2]) == [Digits(a), Digits(b)];
    assert DigitFields(ns[..3]) == [Digits(a), Digits(b), Digits(c)];
  }

  /** The numbers written out in decimal, one field each. */
  function DigitFields(ns: seq<nat>): (fs: seq<string>)
    ensures |fs| == |ns|
  {
    if ns == [] then [] else DigitFields(ns[..|ns| - 1]) + [Digits(ns[|ns| - 1])]
  }

  /** Decimal numbers written out read back as themselves. */
  lemma {:induction false} IntsOfDigits(ns: seq<nat>)
    ensures Ints(DigitFields(ns)) == Ok(ns)
  {
    if ns != [] {
      var n := |ns| - 1;
      var fs := DigitFields(ns);
      assert fs[..n] == DigitFields(ns[..n]);
      IntsOfDigits(ns[..n]);
      ParseDigits(ns[n]);
      assert ns[..n] + [ns[n]] == ns;
    }
  }

  /**
   * The test of `part_1`, with Python's indexing: `rng[0]..rng[1]` and
   * `rng[-2]..rng[-1]`, one containing the other.
   */
  predicate Contains(rng: seq<int>)
    requires |rng| >= 2
  {
    var a, b, c, d := rng[0], rng[1], rng[|rng| - 2], rng[|rng| - 1];
    (a <= c && d <= b) || (c <= a && b <= d)
  }

  /** The test of `part_2`: the start of one range lies in the other. */
  predicate Overlaps(rng: seq<int>)
    requires |rng| >= 2
  {
    var a, b, c, d := rng[0], rng[1], rng[|rng| - 2], rng[|rng| - 1];
    (a <= c <= b) || (c <= a <= d)
  }

  /** Containment does not depend on which range comes first. */
  lemma ContainsSymmetric(a: int, b: int, c: int, d: int)
    ensures Contains([a, b, c, d]) == Contains([c, d, a, b])
  {
  }

  predicate InRange(x: int, lo: int, hi: int)
  {
    lo <= x <= hi
  }

  /** For well-formed ranges the start test of `part_2` is exactly interval intersection. */
  lemma OverlapsIsIntersection(a: int, b: int, c: int, d: int)
    requires a <= b && c <= d
    ensures Overlaps([a, b, c, d]) <==> a <= d && c <= b
    ensures Overlaps([a, b, c, d]) <==> exists x :: InRange(x, a, b) && InRange(x, c, d)
  {
    if a <= d && c <= b {
      var x := Max(a, c);
      assert InRange(x, a, b) && InRange(x, c, d);
    }
  }

  /** For well-formed ranges, one containing the other means they overlap. */
  lemma ContainsOverlaps(a: int, b: int, c: int, d: int)
    requires a <= b && c <= d && Contains([a, b, c, d])
    ensures Overlaps([a, b, c, d])
  {
  }

  /** Well-formed pairs: two ranges `lo-hi` with `lo <= hi`. */
  predicate WellFormed(rng: seq<int>)
  {
    |rng| == 4 && rng[0] <= rng[1] && rng[2] <= rng[3]
  }

  /** `sum(any([...]) for rng in elf_ranges)` for part 1. */
  function CountContains(rs: seq<seq<int>>): (n: nat)
    requires forall k :: 0 <= k < |rs| ==> |rs[k]| >= 2
    ensures n <= |rs|
  {
    if rs == [] then 0 else CountContains(rs[..|rs| - 1]) + (if Contains(rs[|rs| - 1]) then 1 else 0)
  }

  /** The same count for part 2. */
  function CountOverlaps(rs: seq<seq<int>>): (n: nat)
    requires forall k :: 0 <= k < |rs| ==> |rs[k]| >= 2
    ensures n <= |rs|
  {
    if rs == [] then 0 else CountOverlaps(rs[..|rs| - 1]) + (if Overlaps(rs[|rs| - 1]) then 1 else 0)
  }

  /** On well-formed pairs part 1 never exceeds part 2. */
  lemma {:induction false} ContainedAtMostOverlapping(rs: seq<seq<int>>)
    requires forall k :: 0 <= k < |rs| ==> |rs[k]| == 4 && WellFormed(rs[k])
    ensures CountContains(rs) <= CountOverlaps(rs)
  {
    if rs != [] {
      var r := rs[|rs| - 1];
      ContainedAtMostOverlapping(rs[..|rs| - 1]);
      if Contains(r) {
        assert r == [r[0], r[1], r[2], r[3]];
        ContainsOverlaps(r[0], r[1], r[2], r[3]);
      }
    }
  }

  /** `part_1` on given lines. */
  function Part1(lines: seq<string>): Result<nat>
  {
    match Ranges(lines)
    case Err(e) => Err(e)
    case Ok(rs) => Ok(CountContains(rs))
  }

  /** `part_2` on given lines. */
  function Part2(lines: seq<string>): Result<nat>
  {
    match Ranges(lines)
    case Err(e) => Err(e)
    case Ok(rs) => Ok(CountOverlaps(rs))
  }

  /** Lines that all parse to well-formed pairs give a part 1 answer no larger than part 2's. */
  lemma Part1AtMostPart2(lines: seq<string>)
    requires Ranges(lines).Ok?
    requires forall k :: 0 <= k < |lines| ==> |Ranges(lines).value[k]| == 4 && WellFormed(Ranges(lines).value[k])
    ensures Part1(lines).Ok? && Part2(lines).Ok? && Part1(lines).value <= Part2(lines).value
  {
    ContainedAtMostOverlapping(Ranges(lines).value);
  }
}
