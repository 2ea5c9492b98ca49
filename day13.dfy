/**
 * Distress-signal packets: nested lists of non-negative integers, read by a
 * character loop with a stack of open lists, and ordered by a recursive
 * three-valued comparison.
 */
module Day13 {
  import opened Wrappers
  import opened Text

  /** A packet element: an integer or a nested list. A packet is a `seq<Item>`. */
  datatype Item = Int(n: nat) | List(items: seq<Item>)

  // ------------------------------------------------------------------ parsing

  predicate AllDigits(s: string)
  {
    forall i :: 0 <= i < |s| ==> IsDigit(s[i])
  }

  /** `lists[brack_no].append(x)`: add `x` to the innermost open list. */
  function AppendTop(lists: seq<seq<Item>>, x: Item): (r: seq<seq<Item>>)
    requires |lists| > 0
    ensures |r| == |lists| && r[..|r| - 1] == lists[..|lists| - 1] && r[|r| - 1] == lists[|lists| - 1] + [x]
  {
    lists[|lists| - 1 := lists[|lists| - 1] + [x]]
  }

  /** Appends the pending number, if there is one; none when no list is open (IndexError). */
  function Flush(lists: seq<seq<Item>>, cur: string): Option<seq<seq<Item>>>
    requires AllDigits(cur)
  {
    if cur == "" then Some(lists)
    else if lists == [] then None
    else Some(AppendTop(lists, Int(DigitsValue(cur))))
  }

  /** What one character does to the parser: keep going, finish with a packet, or fail. */
  datatype ScanStep = Continue(lists: seq<seq<Item>>, cur: string) | Closed(packet: seq<Item>) | Fail(error: PyError)

  /**
   * One character of the loop. The stack depth `brack_no` is always the
   * number of open lists less one, so it is not kept separately here.
   */
  function Step(lists: seq<seq<Item>>, cur: string, c: char): (o: ScanStep)
    requires AllDigits(cur)
    ensures o.Continue? ==> AllDigits(o.cur)
  {
    if c == '[' then Continue(lists + [[]], cur)
    else if IsDigit(c) then Continue(lists, cur + [c])
    else if c == ',' then
      match Flush(lists, cur)
      case None => Fail(IndexError)
      case Some(ls) => Continue(ls, "")
    else if c == ']' then
      match Flush(lists, cur)
      case None => Fail(IndexError)
      case Some(ls) =>
        if |ls| == 1 then Closed(ls[0])
        else if ls == [] then Fail(IndexError)
        else Continue(AppendTop(ls[..|ls| - 1], List(ls[|ls| - 1])), "")
    else Continue(lists, cur)
  }

  /**
   * The parser from a given state over the rest of the text. Running out of
   * text returns the outermost open list, without any pending number.
   */
  function Run(lists: seq<seq<Item>>, cur: string, s: string): Result<seq<Item>>
    requires AllDigits(cur)
    decreases |s|
  {
    if s == [] then (if lists == [] then Err(IndexError) else Ok(lists[0]))
    else
      match Step(lists, cur, s[0])
      case Continue(ls, c) => Run(ls, c, s[1..])
      case Closed(p) => Ok(p)
      case Fail(e) => Err(e)
  }

  /** The character loop of `parse_packet_wo_eval`, with its stack, digit buffer and depth counter. */
  method ParsePacket(s: string) returns (r: Result<seq<Item>>)
    ensures r == Run([], "", s)
  {
    var lists: seq<seq<Item>> := [];
    var cur := "";
    var brackNo := -1;
    for i := 0 to |s|
      invariant brackNo == |lists| - 1
      invariant AllDigits(cur)
      invariant Run([], "", s) == Run(lists, cur, s[i..])
    {
      assert s[i..][0] == s[i] && s[i..][1..] == s[i + 1..];
      var c := s[i];
      if c == '[' {
        lists := lists + [[]];
        brackNo := brackNo + 1;
      } else if IsDigit(c) {
        cur := cur + [c];
      } else if c == ',' {
        if cur != "" {
          if brackNo < 0 {
            return Err(IndexError);
          }
          lists := lists[brackNo := lists[brackNo] + [Int(DigitsValue(cur))]];
          cur := "";
        }
      } else if c == ']' {
        if cur != "" {
          if brackNo < 0 {
            return Err(IndexError);
          }
          lists := lists[brackNo := lists[brackNo] + [Int(DigitsValue(cur))]];
          cur := "";
        }
        if brackNo == 0 {
          return Ok(lists[0]);
        }
        if brackNo < 0 {
          return Err(IndexError);
        }
        var top := lists[brackNo];
        lists := lists[..brackNo];
        lists := lists[brackNo - 1 := lists[brackNo - 1] + [List(top)]];
        brackNo := brackNo - 1;
      }
    }
    if lists == [] {
      return Err(IndexError);
    }
    return Ok(lists[0]);
  }

  // ------------------------------------------------------------ serialising

  /** The text of an element, with no spaces and numbers in plain decimal. */
  function ItemText(x: Item): string
  {
    match x
    case Int(n) => Digits(n)
    case List(items) => "[" + ItemsText(items) + "]"
  }

  /** The elements' texts joined by commas. */
  function ItemsText(items: seq<Item>): string
  {
    if items == [] then ""
    else if |items| == 1 then ItemText(items[0])
    else ItemText(items[0]) + "," + ItemsText(items[1..])
  }

  function PacketText(p: seq<Item>): string
  {
    ItemText(List(p))
  }

  /** A run of digits only grows the buffer. */
  lemma {:induction false} RunDigits(lists: seq<seq<Item>>, cur: string, ds: string, rest: string)
    requires AllDigits(cur) && AllDigits(ds)
    ensures Run(lists, cur, ds + rest) == Run(lists, cur + ds, rest)
    decreases |ds|
  {
    if ds != [] {
      var s := ds + rest;
      assert s[0] == ds[0] && s[1..] == ds[1..] + rest;
      assert Step(lists, cur, ds[0]) == Continue(lists, cur + [ds[0]]);
      assert Run(lists, cur, s) == Run(lists, cur + [ds[0]], ds[1..] + rest);
      RunDigits(lists, cur + [ds[0]], ds[1..], rest);
      assert cur + [ds[0]] + ds[1..] == cur + ds;
    } else {
      assert ds + rest == rest && cur + ds == cur;
    }
  }

  /** Reading one element followed by `,` or `]` appends it to the innermost open list. */
  lemma {:induction false} RunItem(lists: seq<seq<Item>>, acc: seq<Item>, x: Item, c: char, rest: string)
    requires c == ',' || c == ']'
    ensures Run(lists + [acc], "", ItemText(x) + [c] + rest) == Run(lists + [acc + [x]], "", [c] + rest)
    decreases x, 2
  {
    match x
    case Int(n) => RunNumber(lists, acc, n, c, rest);
    case List(items) =>
      var ls := lists + [acc];
      var inner := ItemsText(items) + "]" + ([c] + rest);
      var s := ItemText(x) + [c] + rest;
      assert s == "[" + inner;
      assert s[0] == '[' && s[1..] == inner;
      assert Run(ls, "", s) == Run(ls + [[]], "", inner);
      RunItems(ls, [], items, [c] + rest);
      assert [] + items == items;
      CloseList(ls, items, c, rest);
      assert AppendTop(ls, List(items)) == lists + [acc + [x]];
  }

  lemma RunNumber(lists: seq<seq<Item>>, acc: seq<Item>, n: nat, c: char, rest: string)
    requires c == ',' || c == ']'
    ensures Run(lists + [acc], "", Digits(n) + [c] + rest) == Run(lists + [acc + [Int(n)]], "", [c] + rest)
  {
    var ls, ds := lists + [acc], Digits(n);
    assert AllDigits(ds) && ds != [];
    calc {
      Run(ls, "", ds + [c] + rest);
      { assert ds + [c] + rest == ds + ([c] + rest); }
      Run(ls, "", ds + ([c] + rest));
      { RunDigits(ls, "", ds, [c] + rest); assert "" + ds == ds; }
      Run(ls, ds, [c] + rest);
      { FlushBeforeSeparator(ls, ds, c, rest); }
      Run(AppendTop(ls, Int(DigitsValue(ds))), "", [c] + rest);
      { DigitsRoundTrip(n); assert AppendTop(ls, Int(n)) == lists + [acc + [Int(n)]]; }
      Run(lists + [acc + [Int(n)]], "", [c] + rest);
    }
  }

  /** At a `,` or `]`, the pending number is appended first, as if the buffer had been flushed before. */
  lemma FlushBeforeSeparator(ls: seq<seq<Item>>, cur: string, c: char, rest: string)
    requires |ls| > 0 && cur != "" && AllDigits(cur) && (c == ',' || c == ']')
    ensures Run(ls, cur, [c] + rest) == Run(AppendTop(ls, Int(DigitsValue(cur))), "", [c] + rest)
  {
    assert ([c] + rest)[0] == c && ([c] + rest)[1..] == rest;
    StepFlush(ls, cur, c);
  }

  /** A separator after a pending number acts as if the number had been appended first. */
  lemma StepFlush(ls: seq<seq<Item>>, cur: string, c: char)
    requires |ls| > 0 && cur != "" && AllDigits(cur) && (c == ',' || c == ']')
    ensures Step(ls, cur, c) == Step(AppendTop(ls, Int(DigitsValue(cur))), "", c)
  {
    assert Flush(ls, cur) == Flush(AppendTop(ls, Int(DigitsValue(cur))), "");
  }

  /** The `]` of a nested list appends the finished list to the one enclosing it. */
  lemma CloseList(ls: seq<seq<Item>>, items: seq<Item>, c: char, rest: string)
    requires |ls| > 0
    ensures Run(ls + [items], "", "]" + ([c] + rest)) == Run(AppendTop(ls, List(items)), "", [c] + rest)
  {
    assert ("]" + ([c] + rest))[0] == ']' && ("]" + ([c] + rest))[1..] == [c] + rest;
    var open := ls + [items];
    assert open[..|open| - 1] == ls && open[|open| - 1] == items;
  }

  /** Reading comma-separated elements up to a `]` appends them all, in order. */
  lemma {:induction false} RunItems(lists: seq<seq<Item>>, acc: seq<Item>, items: seq<Item>, rest: string)
    ensures Run(lists + [acc], "", ItemsText(items) + "]" + rest) == Run(lists + [acc + items], "", "]" + rest)
    decreases items, 1
  {
    if items == [] {
      assert acc + items == acc;
      assert ItemsText(items) + "]" + rest == "]" + rest;
    } else if |items| == 1 {
      RunLastItem(lists, acc, items, rest);
    } else {
      RunMoreItems(lists, acc, items, rest);
    }
  }

  lemma {:induction false} RunLastItem(lists: seq<seq<Item>>, acc: seq<Item>, items: seq<Item>, rest: string)
    requires |items| == 1
    ensures Run(lists + [acc], "", ItemsText(items) + "]" + rest) == Run(lists + [acc + items], "", "]" + rest)
    decreases items, 0
  {
    RunItem(lists, acc, items[0], ']', rest);
    assert acc + items == acc + [items[0]];
    LastItemText(items, rest);
  }

  lemma {:induction false} RunMoreItems(lists: seq<seq<Item>>, acc: seq<Item>, items: seq<Item>, rest: string)
    requires |items| >= 2
    ensures Run(lists + [acc], "", ItemsText(items) + "]" + rest) == Run(lists + [acc + items], "", "]" + rest)
    decreases items, 0
  {
    var x, more := items[0], ItemsText(items[1..]) + "]" + rest;
    var front := acc + [x];
    calc {
      Run(lists + [acc], "", ItemsText(items) + "]" + rest);
      { ItemsTextCons(items, rest); }
      Run(lists + [acc], "", ItemText(x) + [','] + more);
      { RunItem(lists, acc, x, ',', more); }
      Run(lists + [front], "", [','] + more);
      { RunComma(lists + [front], more); }
      Run(lists + [front], "", more);
      { RunItems(lists, front, items[1..], rest); }
      Run(lists + [front + items[1..]], "", "]" + rest);
      { assert front + items[1..] == acc + items; }
      Run(lists + [acc + items], "", "]" + rest);
    }
  }

  lemma LastItemText(items: seq<Item>, rest: string)
    requires |items| == 1
    ensures ItemsText(items) + "]" + rest == ItemText(items[0]) + [']'] + rest
  {
  }

  lemma ItemsTextCons(items: seq<Item>, rest: string)
    requires |items| >= 2
    ensures ItemsText(items) + "]" + rest == ItemText(items[0]) + [','] + (ItemsText(items[1..]) + "]" + rest)
  {
    var a, b := ItemText(items[0]), ItemsText(items[1..]);
    assert ItemsText(items) == a + "," + b;
    Regroup(a, b, rest);
  }

  lemma Regroup(a: string, b: string, rest: string)
    ensures a + "," + b + "]" + rest == a + [','] + (b + "]" + rest)
  {
  }

  /** A comma with no pending number changes nothing. */
  lemma RunComma(ls: seq<seq<Item>>, more: string)
    ensures Run(ls, "", [','] + more) == Run(ls, "", more)
  {
    assert ([','] + more)[0] == ',' && ([','] + more)[1..] == more;
  }

  /**
   * The parser reads back the text of any packet, and stops at the `]` that
   * closes it: whatever follows is ignored.
   */
  lemma ParseRoundTrip(p: seq<Item>, rest: string)
    ensures Run([], "", PacketText(p) + rest) == Ok(p)
  {
    var s := PacketText(p) + rest;
    assert s == "[" + (ItemsText(p) + "]" + rest);
    assert s[1..] == ItemsText(p) + "]" + rest;
    var none: seq<seq<Item>> := [];
    assert none + [[]] == [[]];
    RunItems(none, [], p, rest);
    assert [] + p == p;
    assert none + [[] + p] == [p];
  }

  lemma PairText(x: Item, y: Item)
    ensures ItemsText([x, y]) == ItemText(x) + "," + ItemText(y)
  {
    assert [x, y][1..] == [y];
  }

  /** The flat example is read as the list it spells. */
  lemma ParseFlatExample()
    ensures Run([], "", "[1,1,3,1,1]") == Ok([Int(1), Int(1), Int(3), Int(1), Int(1)])
  {
    var p := [Int(1), Int(1), Int(3), Int(1), Int(1)];
    FlatExampleText(p);
    ParseRoundTrip(p, "");
    assert PacketText(p) + "" == PacketText(p);
  }

  /** The text of the flat example. */
  lemma FlatExampleText(p: seq<Item>)
    requires p == [Int(1), Int(1), Int(3), Int(1), Int(1)]
    ensures PacketText(p) == "[1,1,3,1,1]"
  {
    assert ItemText(Int(1)) == "1" && ItemText(Int(3)) == "3";
    assert p[4..] == [Int(1)] && ItemsText(p[4..]) == "1";
    assert ItemsText(p[3..]) == "1,1";
    assert ItemsText(p[2..]) == "3,1,1";
    assert ItemsText(p[1..]) == "1,3,1,1";
    assert ItemsText(p) == "1,1,3,1,1";
  }

  // -------------------------------------------------------------- ordering

  function ItemSize(x: Item): nat
  {
    match x
    case Int(_) => 1
    case List(items) => 1 + SeqSize(items)
  }

  function SeqSize(s: seq<Item>): nat
  {
    if s == [] then 0 else ItemSize(s[0]) + SeqSize(s[1..])
  }

  lemma SingletonSize(x: Item)
    ensures SeqSize([x]) == ItemSize(x)
  {
    assert [x][1..] == [];
  }

  /**
   * The order of two packets: `Some(true)` when the left comes first,
   * `Some(false)` when the right does, `None` when undecided. The first
   * decided element pair settles it; otherwise the shorter list comes first.
   */
  function CompareSeq(l: seq<Item>, r: seq<Item>): Option<bool>
    decreases SeqSize(l) + SeqSize(r), 1
  {
    if l == [] || r == [] then
      (if l != [] then Some(false) else if r != [] then Some(true) else None)
    else
      var c := CompareItem(l[0], r[0]);
      if c.Some? then c else CompareSeq(l[1..], r[1..])
  }

  /** Integers by value; an integer against a list is first wrapped in a one-element list. */
  function CompareItem(a: Item, b: Item): Option<bool>
    decreases ItemSize(a) + ItemSize(b), 0
  {
    match (a, b)
    case (Int(k), Int(j)) => if k < j then Some(true) else if k > j then Some(false) else None
    case (Int(k), List(q)) => SingletonSize(Int(k)); CompareSeq([Int(k)], q)
    case (List(p), Int(j)) => SingletonSize(Int(j)); CompareSeq(p, [Int(j)])
    case (List(p), List(q)) => CompareSeq(p, q)
  }

  /**
   * `packet_relation`: pops the heads of copies of both lists while both are
   * non-empty and nothing is decided, recursing into nested lists.
   */
  method PacketRelation(left: seq<Item>, right: seq<Item>) returns (comparison: Option<bool>)
    ensures comparison == CompareSeq(left, right)
    decreases SeqSize(left) + SeqSize(right)
  {
    var pl, pr := left, right;
    comparison := None;
    while pl != [] && pr != [] && comparison.None?
      invariant SeqSize(pl) + SeqSize(pr) <= SeqSize(left) + SeqSize(right)
      invariant CompareSeq(left, right) == if comparison.None? then CompareSeq(pl, pr) else comparison
      decreases |pl|
    {
      var k, j := pl[0], pr[0];
      ghost var before := (pl, pr);
      pl, pr := pl[1..], pr[1..];
      match (k, j)
      case (Int(x), Int(y)) =>
        if x < y {
          comparison := Some(true);
        } else if x > y {
          comparison := Some(false);
        }
      case (Int(x), List(q)) =>
        SingletonSize(k);
        comparison := PacketRelation([k], q);
      case (List(p), Int(y)) =>
        SingletonSize(j);
        comparison := PacketRelation(p, [j]);
      case (List(p), List(q)) =>
        comparison := PacketRelation(p, q);
      assert comparison == CompareItem(k, j);
      assert CompareSeq(before.0, before.1) == if comparison.Some? then comparison else CompareSeq(pl, pr);
    }
    if comparison.None? && pl != [] && pr == [] {
      return Some(false);
    }
    if comparison.None? && pl == [] && pr != [] {
      return Some(true);
    }
  }

  /** Swaps the outcome of a decided comparison; keeps `None`. */
  function Flip(c: Option<bool>): Option<bool>
  {
    if c.Some? then Some(!c.value) else None
  }

  /** Every case is handled symmetrically: swapping the packets flips the outcome. */
  lemma {:induction false} CompareSeqAntisymmetric(l: seq<Item>, r: seq<Item>)
    ensures CompareSeq(r, l) == Flip(CompareSeq(l, r))
    decreases SeqSize(l) + SeqSize(r), 1
  {
    if l != [] && r != [] {
      CompareItemAntisymmetric(l[0], r[0]);
      CompareSeqAntisymmetric(l[1..], r[1..]);
    }
  }

  lemma {:induction false} CompareItemAntisymmetric(a: Item, b: Item)
    ensures CompareItem(b, a) == Flip(CompareItem(a, b))
    decreases ItemSize(a) + ItemSize(b), 0
  {
    match (a, b)
    case (Int(k), Int(j)) =>
    case (Int(k), List(q)) => SingletonSize(Int(k)); CompareSeqAntisymmetric([Int(k)], q);
    case (List(p), Int(j)) => SingletonSize(Int(j)); CompareSeqAntisymmetric(p, [Int(j)]);
    case (List(p), List(q)) => CompareSeqAntisymmetric(p, q);
  }

  /** A packet never decides against itself. */
  lemma {:induction false} CompareSeqReflexive(l: seq<Item>)
    ensures CompareSeq(l, l) == None
    decreases SeqSize(l) + SeqSize(l), 1
  {
    if l != [] {
      CompareItemReflexive(l[0]);
      CompareSeqReflexive(l[1..]);
    }
  }

  lemma {:induction false} CompareItemReflexive(a: Item)
    ensures CompareItem(a, a) == None
    decreases ItemSize(a) + ItemSize(a), 0
  {
    match a
    case Int(_) =>
    case List(p) => CompareSeqReflexive(p);
  }

  /** A packet comes before any proper extension of it: the left runs out first. */
  lemma {:induction false} PrefixComesFirst(l: seq<Item>, t: seq<Item>)
    requires t != []
    ensures CompareSeq(l, l + t) == Some(true)
    decreases |l|
  {
    if l != [] {
      CompareItemReflexive(l[0]);
      assert (l + t)[0] == l[0] && (l + t)[1..] == l[1..] + t;
      PrefixComesFirst(l[1..], t);
    }
  }

  /** `packet_comparator`: 1 when the left comes first, -1 when the right does, 0 when undecided. */
  function PacketComparator(l: seq<Item>, r: seq<Item>): (c: int)
    ensures c == 1 <==> CompareSeq(l, r) == Some(true)
    ensures c == -1 <==> CompareSeq(l, r) == Some(false)
    ensures c == 0 <==> CompareSeq(l, r) == None
  {
    var rel := CompareSeq(l, r);
    if rel.Some? then 2 * (if rel.value then 1 else 0) - 1 else 0
  }

  /** The comparator is antisymmetric, as a sort key built from it needs. */
  lemma ComparatorAntisymmetric(l: seq<Item>, r: seq<Item>)
    ensures PacketComparator(r, l) == -PacketComparator(l, r)
  {
    CompareSeqAntisymmetric(l, r);
  }
}
