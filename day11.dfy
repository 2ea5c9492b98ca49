/**
 * Monkeys passing items by worry level, and the product ring
 * Z/n1 x ... x Z/nm that tracks worry levels by their residues.
 */
module Day11 {
  import opened Wrappers
  import opened PyOps
  import opened Text
  import opened Sorting

  // ------------------------------------------------------------ the ring

  /** `RingProduct`: the moduli of the ring's factors. */
  datatype RingProduct = RingProduct(moduli: seq<int>)

  /** `moduli_ix`: each modulus to its position; a repeated modulus keeps its last one. */
  function ModuliIx(moduli: seq<int>): (ix: map<int, nat>)
    ensures forall m :: m in ix <==> m in moduli
    ensures forall m :: m in ix ==> ix[m] < |moduli| && moduli[ix[m]] == m
  {
    if moduli == [] then map[]
    else
      var front := moduli[..|moduli| - 1];
      assert forall m :: m in moduli <==> m in front || m == moduli[|moduli| - 1];
      ModuliIx(front)[moduli[|moduli| - 1] := |moduli| - 1]
  }

  /** `map_z_to_ring`: the residue of `z` for every modulus; a zero modulus fails. */
  function MapZToRing(moduli: seq<int>, z: int): (r: Result<seq<int>>)
    ensures r.Err? <==> 0 in moduli
    ensures r.Err? ==> r.error == ZeroDivisionError
    ensures r.Ok? ==> |r.value| == |moduli| && forall k :: 0 <= k < |moduli| ==> r.value[k] == PyMod(z, moduli[k])
  {
    if moduli == [] then Ok([])
    else
      var front := moduli[..|moduli| - 1];
      var last := moduli[|moduli| - 1];
      assert forall m :: m in moduli <==> m in front || m == last;
      match MapZToRing(front, z)
      case Err(e) => Err(e)
      case Ok(rs) => if last == 0 then Err(ZeroDivisionError) else Ok(rs + [PyMod(z, last)])
  }

  /**
   * `ring_addition` (`mult` false) and `ring_mult` (`mult` true) from
   * factor `k` on: componentwise, reduced by each modulus; a short operand
   * fails the indexing and a zero modulus the reduction.
   */
  function RingOp(moduli: seq<int>, r1: seq<int>, r2: seq<int>, k: nat, mult: bool): (r: Result<seq<int>>)
    requires k <= |moduli|
    ensures r.Ok? <==> forall i :: k <= i < |moduli| ==> Factor(moduli, r1, r2, i)
    ensures r.Ok? ==> |r.value| == |moduli| - k
    ensures r.Ok? ==> forall j :: 0 <= j < |moduli| - k ==>
              Factor(moduli, r1, r2, j + k) && r.value[j] == FactorOp(moduli, r1, r2, j + k, mult)
    decreases |moduli| - k
  {
    if k == |moduli| then Ok([])
    else if !Factor(moduli, r1, r2, k) then Err(if k >= |r1| || k >= |r2| then IndexError else ZeroDivisionError)
    else
      match RingOp(moduli, r1, r2, k + 1, mult)
      case Err(e) => Err(e)
      case Ok(rest) =>
        var v := [FactorOp(moduli, r1, r2, k, mult)] + rest;
        assert forall j :: 1 <= j < |v| ==> v[j] == rest[j - 1];
        assert forall i :: k <= i < |moduli| ==> Factor(moduli, r1, r2, i) by {
          forall i | k <= i < |moduli| ensures Factor(moduli, r1, r2, i) {
            if i > k { assert Factor(moduli, r1, r2, (i - (k + 1)) + (k + 1)); }
          }
        }
        Ok(v)
  }

  /** Factor `i` can be computed: both operands have it and its modulus is not 0. */
  predicate Factor(moduli: seq<int>, r1: seq<int>, r2: seq<int>, i: nat)
  {
    i < |moduli| && i < |r1| && i < |r2| && moduli[i] != 0
  }

  function FactorOp(moduli: seq<int>, r1: seq<int>, r2: seq<int>, i: nat, mult: bool): int
    requires Factor(moduli, r1, r2, i)
  {
    PyMod(if mult then r1[i] * r2[i] else r1[i] + r2[i], moduli[i])
  }

  function RingAddition(ring: RingProduct, r1: seq<int>, r2: seq<int>): Result<seq<int>>
  {
    RingOp(ring.moduli, r1, r2, 0, false)
  }

  function RingMult(ring: RingProduct, r1: seq<int>, r2: seq<int>): Result<seq<int>>
  {
    RingOp(ring.moduli, r1, r2, 0, true)
  }

  /** Python's remainder is the unique one with the divisor's sign and smaller magnitude. */
  lemma ModUnique(x: int, m: int, q: int, r: int)
    requires m != 0 && x == m * q + r
    requires m > 0 ==> 0 <= r < m
    requires m < 0 ==> m < r <= 0
    ensures PyMod(x, m) == r
  {
    var q' := FloorDiv(x, m);
    var r' := PyMod(x, m);
    assert m * (q - q') == r' - r;
    if q - q' >= 1 {
      MulAtLeast(m, q - q');
    } else if q - q' <= -1 {
      MulAtLeast(m, q' - q);
    }
  }

  lemma MulAtLeast(m: int, d: int)
    requires d >= 1
    ensures m > 0 ==> m * d >= m
    ensures m < 0 ==> m * d <= m
  {
    if m > 0 {
      assert m * d == m + m * (d - 1);
      assert m * (d - 1) >= 0;
    } else if m < 0 {
      assert m * d == m + m * (d - 1);
      assert (-m) * (d - 1) >= 0;
    }
  }

  /** Reducing before adding changes nothing. */
  lemma ModAdd(a: int, b: int, m: int)
    requires m != 0
    ensures PyMod(a + b, m) == PyMod(PyMod(a, m) + PyMod(b, m), m)
  {
    var qa, qb := FloorDiv(a, m), FloorDiv(b, m);
    var ra, rb := PyMod(a, m), PyMod(b, m);
    var s := PyMod(ra + rb, m);
    var qs := FloorDiv(ra + rb, m);
    assert a + b == m * (qa + qb + qs) + s;
    ModUnique(a + b, m, qa + qb + qs, s);
  }

  /** Reducing before multiplying changes nothing. */
  lemma ModMult(a: int, b: int, m: int)
    requires m != 0
    ensures PyMod(a * b, m) == PyMod(PyMod(a, m) * PyMod(b, m), m)
  {
    var qa, qb := FloorDiv(a, m), FloorDiv(b, m);
    var ra, rb := PyMod(a, m), PyMod(b, m);
    var k := qa * m * qb + qa * rb + ra * qb;
    ProductForm(m, qa, ra, qb, rb);
    assert a * b == m * k + ra * rb;
    var qs, s := FloorDiv(ra * rb, m), PyMod(ra * rb, m);
    Distribute(m, k, qs);
    ModUnique(a * b, m, k + qs, s);
  }

  lemma ProductForm(m: int, qa: int, ra: int, qb: int, rb: int)
    ensures (m * qa + ra) * (m * qb + rb) == m * (qa * m * qb + qa * rb + ra * qb) + ra * rb
  {
  }

  lemma Distribute(m: int, k: int, q: int)
    ensures m * k + m * q == m * (k + q)
  {
  }

  /**
   * `map_z_to_ring` is a ring homomorphism: the residues of a sum are the
   * ring sum of the residues...
   */
  lemma HomomorphismAdd(ring: RingProduct, a: int, b: int)
    requires 0 !in ring.moduli
    ensures MapZToRing(ring.moduli, a + b)
         == RingAddition(ring, MapZToRing(ring.moduli, a).value, MapZToRing(ring.moduli, b).value)
  {
    var ms := ring.moduli;
    var ra, rb := MapZToRing(ms, a).value, MapZToRing(ms, b).value;
    var lhs, rhs := MapZToRing(ms, a + b).value, RingAddition(ring, ra, rb).value;
    forall k | 0 <= k < |ms|
      ensures lhs[k] == rhs[k]
    {
      assert ms[k] in ms;
      ModAdd(a, b, ms[k]);
    }
    assert lhs == rhs;
  }

  /** ... and the residues of a product are the ring product of the residues. */
  lemma HomomorphismMult(ring: RingProduct, a: int, b: int)
    requires 0 !in ring.moduli
    ensures MapZToRing(ring.moduli, a * b)
         == RingMult(ring, MapZToRing(ring.moduli, a).value, MapZToRing(ring.moduli, b).value)
  {
    var ms := ring.moduli;
    var ra, rb := MapZToRing(ms, a).value, MapZToRing(ms, b).value;
    var lhs, rhs := MapZToRing(ms, a * b).value, RingMult(ring, ra, rb).value;
    forall k | 0 <= k < |ms|
      ensures lhs[k] == rhs[k]
    {
      assert ms[k] in ms;
      ModMult(a, b, ms[k]);
    }
    assert lhs == rhs;
  }

  /** A remainder of 0 is divisibility. */
  ghost predicate Divides(m: int, n: int)
  {
    exists q :: n == m * q
  }

  lemma DividesIff(m: int, n: int)
    requires m != 0
    ensures PyMod(n, m) == 0 <==> Divides(m, n)
  {
    if Divides(m, n) {
      var q :| n == m * q;
      ModUnique(n, m, q, 0);
    } else {
      assert n != m * FloorDiv(n, m);
    }
  }

  // ------------------------------------------------------------ worry levels

  /** A worry level: an integer in plain mode, its residues in ring mode. */
  datatype Item = Plain(n: int) | Residues(rs: seq<int>)

  /**
   * `op_dict[bin_op](a, b)`: integer `+`/`*` without a ring, the ring's
   * operations with one; another operator is a `KeyError`. An item of the
   * other mode is reported as a `TypeError`.
   */
  function ApplyOp(ring: Option<RingProduct>, op: string, a: Item, b: Item): (r: Result<Item>)
    ensures op != "+" && op != "*" ==> r == Err(KeyError)
    ensures ring.None? && a.Plain? && b.Plain? && op == "+" ==> r == Ok(Plain(a.n + b.n))
    ensures ring.None? && a.Plain? && b.Plain? && op == "*" ==> r == Ok(Plain(a.n * b.n))
  {
    if op != "+" && op != "*" then Err(KeyError)
    else
      match ring
      case None =>
        if a.Plain? && b.Plain? then Ok(Plain(if op == "+" then a.n + b.n else a.n * b.n)) else Err(TypeError)
      case Some(rp) =>
        if a.Residues? && b.Residues? then
          match RingOp(rp.moduli, a.rs, b.rs, 0, op == "*")
          case Err(e) => Err(e)
          case Ok(v) => Ok(Residues(v))
        else Err(TypeError)
  }

  /** An integer operand as the mode needs it: itself, or its residues. */
  function Lift(ring: Option<RingProduct>, c: int): Result<Item>
  {
    match ring
    case None => Ok(Plain(c))
    case Some(rp) =>
      match MapZToRing(rp.moduli, c)
      case Err(e) => Err(e)
      case Ok(v) => Ok(Residues(v))
  }

  /**
   * `worry_modifier`, with a constant operand read as the integer it
   * spells: `old` squares or doubles the item, a constant is added or
   * multiplied, and parameters that are not a pair leave the item as it is.
   */
  function Worry(ring: Option<RingProduct>, params: seq<string>, item: Item): Result<Item>
  {
    if |params| != 2 then Ok(item)
    else if params[1] == "old" then ApplyOp(ring, params[0], item, item)
    else
      match ParseInt(params[1])
      case None => Err(ValueError)
      case Some(c) =>
        match Lift(ring, c)
        case Err(e) => Err(e)
        case Ok(operand) => ApplyOp(ring, params[0], item, operand)
  }

  /** The worry after an inspection: in plain mode it is also floor-divided by 3. */
  function Inspected(ring: Option<RingProduct>, params: seq<string>, item: Item): (r: Result<Item>)
    ensures ring.None? && Worry(ring, params, item).Ok? && Worry(ring, params, item).value.Plain?
            ==> r == Ok(Plain(FloorDiv(Worry(ring, params, item).value.n, 3)))
    ensures ring.Some? ==> r == Worry(ring, params, item)
  {
    match Worry(ring, params, item)
    case Err(e) => Err(e)
    case Ok(w) =>
      if ring.Some? then Ok(w)
      else if w.Plain? then Ok(Plain(FloorDiv(w.n, 3)))
      else Err(TypeError)
  }

  /**
   * Ring mode tracks plain mode without the division: where the plain
   * worry of `z` is `w`, the ring worry of `z`'s residues is `w`'s residues.
   */
  lemma RingTracksPlain(rp: RingProduct, params: seq<string>, z: int)
    requires 0 !in rp.moduli
    requires Worry(None, params, Plain(z)).Ok?
    ensures Worry(Some(rp), params, Residues(MapZToRing(rp.moduli, z).value))
         == Ok(Residues(MapZToRing(rp.moduli, Worry(None, params, Plain(z)).value.n).value))
  {
    if |params| == 2 {
      var c := if params[1] == "old" then z else ParseInt(params[1]).value;
      OpTracksPlain(rp, params[0], z, c);
    }
  }

  lemma OpTracksPlain(rp: RingProduct, op: string, a: int, b: int)
    requires 0 !in rp.moduli && (op == "+" || op == "*")
    ensures ApplyOp(Some(rp), op, Residues(MapZToRing(rp.moduli, a).value), Residues(MapZToRing(rp.moduli, b).value))
         == Ok(Residues(MapZToRing(rp.moduli, ApplyOp(None, op, Plain(a), Plain(b)).value.n).value))
  {
    var ra, rb := MapZToRing(rp.moduli, a).value, MapZToRing(rp.moduli, b).value;
    if op == "+" {
      HomomorphismAdd(rp, a, b);
      assert ApplyOp(None, op, Plain(a), Plain(b)) == Ok(Plain(a + b));
      assert ApplyOp(Some(rp), op, Residues(ra), Residues(rb)) == Ok(Residues(RingAddition(rp, ra, rb).value));
    } else {
      HomomorphismMult(rp, a, b);
      assert ApplyOp(None, op, Plain(a), Plain(b)) == Ok(Plain(a * b));
      assert ApplyOp(Some(rp), op, Residues(ra), Residues(rb)) == Ok(Residues(RingMult(rp, ra, rb).value));
    }
  }

  // --------------------------------------- the constant operand as written

  /** The two kinds of value the plain-mode worry can take as written. */
  datatype PyValue = PyInt(n: int) | PyStr(s: string)

  /** Python's `n * s` for an int and a str: `s` repeated `n` times, empty when `n <= 0`. */
  function Repeat(s: string, n: int): (r: string)
    ensures n <= 0 ==> r == []
    ensures n > 0 ==> |r| == n * |s| && forall i :: 0 <= i < |r| ==> r[i] == s[i % |s|]
  {
    if n <= 0 || s == [] then [] else seq(n * |s|, i requires 0 <= i < n * |s| => s[i % |s|])
  }

  /**
   * Plain-mode `worry_modifier` as written: the operand is the raw token of
   * the notes, so `item + "6"` raises `TypeError` and `item * "19"` builds a
   * string.
   */
  function WorryAsWritten(params: seq<string>, item: int): Result<PyValue>
  {
    if |params| != 2 then Ok(PyInt(item))
    else if params[0] != "+" && params[0] != "*" then Err(KeyError)
    else if params[1] == "old" then Ok(PyInt(if params[0] == "+" then item + item else item * item))
    else if params[0] == "+" then Err(TypeError)
    else Ok(PyStr(Repeat(params[1], item)))
  }

  /** The plain-mode worry after `cast(int, item) // 3`, as written; a string cannot be floor-divided. */
  function InspectedAsWritten(params: seq<string>, item: int): Result<int>
  {
    match WorryAsWritten(params, item)
    case Err(e) => Err(e)
    case Ok(PyInt(n)) => Ok(FloorDiv(n, 3))
    case Ok(PyStr(_)) => Err(TypeError)
  }

  /** As written, every inspection with a constant operand raises `TypeError`. */
  lemma ConstantOperandRaises(params: seq<string>, item: int)
    requires |params| == 2 && (params[0] == "+" || params[0] == "*") && params[1] != "old"
    ensures InspectedAsWritten(params, item) == Err(TypeError)
  {
  }

  /** Read as the integer it spells, the same operand gives the worry the puzzle describes. */
  lemma ConstantOperandCorrected(params: seq<string>, item: int, c: int)
    requires |params| == 2 && (params[0] == "+" || params[0] == "*") && params[1] != "old"
    requires ParseInt(params[1]) == Some(c)
    ensures Inspected(None, params, Plain(item))
         == Ok(Plain(FloorDiv(if params[0] == "+" then item + c else item * c, 3)))
  {
  }

  /** A concrete case: `new = old * 19` on worry 79 raises as written, and should give 500. */
  lemma ConstantOperandExample()
    ensures InspectedAsWritten(["*", "19"], 79) == Err(TypeError)
    ensures Inspected(None, ["*", "19"], Plain(79)) == Ok(Plain(500))
  {
    ConstantOperandRaises(["*", "19"], 79);
    ConstantOperandDigits("*", 19, 79);
    assert FloorDiv(79 * 19, 3) == 500;
    assert Digits(19) == "19" by {
      assert Digits(1) == "1";
    }
  }

  /** The corrected worry of a constant operand written in decimal. */
  lemma ConstantOperandDigits(op: string, c: nat, item: int)
    requires op == "+" || op == "*"
    ensures Inspected(None, [op, Digits(c)], Plain(item))
         == Ok(Plain(FloorDiv(if op == "+" then item + c else item * c, 3)))
  {
    ParseDigits(c);
    assert Digits(c) != "old" by {
      assert IsDigits(Digits(c));
      assert !IsDigit('o');
    }
    ConstantOperandCorrected([op, Digits(c)], item, c);
  }

  // ------------------------------------------------------------ the monkeys

  class Monkey {
    var heldItems: seq<Item>
    const worryModifierParams: seq<string>
    const modulus: int
    const trueMonkey: int
    const falseMonkey: int
    var inspectionCount: int
    const ringProduct: Option<RingProduct>

    constructor(startItems: seq<Item>, params: seq<string>, modulus: int, trueMonkey: int, falseMonkey: int,
                ringProduct: Option<RingProduct>)
      ensures heldItems == startItems && worryModifierParams == params && this.modulus == modulus
      ensures this.trueMonkey == trueMonkey && this.falseMonkey == falseMonkey
      ensures inspectionCount == 0 && this.ringProduct == ringProduct
    {
      heldItems := startItems;
      worryModifierParams := params;
      this.modulus := modulus;
      this.trueMonkey := trueMonkey;
      this.falseMonkey := falseMonkey;
      inspectionCount := 0;
      this.ringProduct := ringProduct;
    }

    /**
     * `throw`: the monkey the item goes to. In plain mode it is
     * `true_monkey` exactly when the modulus divides the worry; in ring
     * mode the test reads the residue for the modulus. In ring mode the
     * index `moduli_ix[modulus]` is looked up before the item is
     * subscripted, so an unknown modulus is a `KeyError` whatever the item.
     */
    function Throw(item: Item): (r: Result<int>)
      ensures r.Ok? ==> r.value == trueMonkey || r.value == falseMonkey
      ensures ringProduct.None? && item.Plain? && modulus != 0
              ==> r == Ok(if Divides(modulus, item.n) then trueMonkey else falseMonkey)
      ensures ringProduct.None? && item.Residues? ==> r == Err(TypeError)
      ensures ringProduct.None? && item.Plain? && modulus == 0 ==> r == Err(ZeroDivisionError)
    {
      match ringProduct
      case None =>
        if item.Residues? then Err(TypeError)
        else if modulus == 0 then Err(ZeroDivisionError)
        else
          DividesIff(modulus, item.n);
          Ok(if PyMod(item.n, modulus) == 0 then trueMonkey else falseMonkey)
      case Some(rp) =>
        var ix := ModuliIx(rp.moduli);
        if modulus !in ix then Err(KeyError)
        else if item.Plain? then Err(TypeError)
        else if ix[modulus] >= |item.rs| then Err(IndexError)
        else Ok(if item.rs[ix[modulus]] == 0 then trueMonkey else falseMonkey)
    }

    /**
     * The ring-mode test, errors first: an unknown modulus is a `KeyError`
     * whatever the item; otherwise a plain item is a `TypeError`, a residue
     * list too short for the modulus's position an `IndexError`, and the
     * residue at that position picks the target.
     */
    lemma ThrowRing(item: Item)
      requires ringProduct.Some?
      ensures modulus !in ringProduct.value.moduli ==> Throw(item) == Err(KeyError)
      ensures modulus in ringProduct.value.moduli ==>
                var k := ModuliIx(ringProduct.value.moduli)[modulus];
                ringProduct.value.moduli[k] == modulus
                && (item.Plain? ==> Throw(item) == Err(TypeError))
                && (item.Residues? && k >= |item.rs| ==> Throw(item) == Err(IndexError))
                && (item.Residues? && k < |item.rs| ==> Throw(item) == Ok(if item.rs[k] == 0 then trueMonkey else falseMonkey))
    {
    }

    /** In ring mode the throw of `z`'s residues agrees with the plain divisibility test on `z`. */
    lemma ThrowAgrees(z: int)
      requires ringProduct.Some? && 0 !in ringProduct.value.moduli && modulus in ringProduct.value.moduli
      ensures Throw(Residues(MapZToRing(ringProduct.value.moduli, z).value))
           == Ok(if Divides(modulus, z) then trueMonkey else falseMonkey)
    {
      var ms := ringProduct.value.moduli;
      var k := ModuliIx(ms)[modulus];
      assert MapZToRing(ms, z).value[k] == PyMod(z, modulus);
      DividesIff(modulus, z);
    }

    /** `catch_item`: the item joins the end of the held items. */
    method CatchItem(item: Item)
      modifies this
      ensures heldItems == old(heldItems) + [item]
      ensures inspectionCount == old(inspectionCount)
    {
      heldItems := heldItems + [item];
    }

    /**
     * `inspect_and_throw`: takes the first held item, changes its worry,
     * counts one inspection and picks the target. With no items the `pop`
     * fails and nothing changes.
     */
    method InspectAndThrow() returns (r: Result<(int, Item)>)
      modifies this
      ensures old(heldItems) == [] ==> r == Err(IndexError) && unchanged(this)
      ensures old(heldItems) != [] ==> heldItems == old(heldItems)[1..]
      ensures old(heldItems) != [] ==>
                var w := Inspected(ringProduct, worryModifierParams, old(heldItems)[0]);
                if w.Err? then r == Err(w.error) && inspectionCount == old(inspectionCount)
                else inspectionCount == old(inspectionCount) + 1
                     && r == (match Throw(w.value) case Err(e) => Err(e) case Ok(t) => Ok((t, w.value)))
    {
      if heldItems == [] {
        return Err(IndexError);
      }
      var first := heldItems[0];
      heldItems := heldItems[1..];
      var item := Worry(ringProduct, worryModifierParams, first);
      if item.Err? {
        return Err(item.error);
      }
      var w := item.value;
      if ringProduct.None? {
        if w.Residues? {
          return Err(TypeError);
        }
        w := Plain(FloorDiv(w.n, 3));
      }
      inspectionCount := inspectionCount + 1;
      var target := Throw(w);
      if target.Err? {
        return Err(target.error);
      }
      return Ok((target.value, w));
    }
  }

  // ------------------------------------------------------------ the rounds

  /** What one monkey holds, and how many items it has inspected, at one moment. */
  datatype MonkeyState = MonkeyState(held: seq<Item>, count: int)

  /** Where a run of throws stopped: how it ended, the monkeys' states then, and the fuel left. */
  datatype Run = Run(outcome: Outcome<()>, states: seq<MonkeyState>, fuel: nat)

  /** The run got through, to the states `st` with `fuel` left. */
  predicate Reached(run: Run, st: seq<MonkeyState>, fuel: nat)
  {
    run.outcome.Done? && run.states == st && run.fuel == fuel
  }

  /** The monkeys' current states, in their order. */
  ghost function States(ms: seq<Monkey>): (r: seq<MonkeyState>)
    reads set i | 0 <= i < |ms| :: ms[i]
    ensures |r| == |ms| && forall i :: 0 <= i < |ms| ==> r[i] == MonkeyState(ms[i].heldItems, ms[i].inspectionCount)
  {
    if ms == [] then [] else States(ms[..|ms| - 1]) + [MonkeyState(ms[|ms| - 1].heldItems, ms[|ms| - 1].inspectionCount)]
  }

  /**
   * One pass of the `while` body for monkey `k`: its first item is taken,
   * inspected and counted, and the target catches it; a target that is not
   * a monkey is a `KeyError`. An exception leaves the states as far as the
   * statements before it got.
   */
  function ThrowStep(ms: seq<Monkey>, st: seq<MonkeyState>, k: nat): (r: (Result<()>, seq<MonkeyState>))
    requires |st| == |ms| && k < |ms|
    ensures |r.1| == |ms|
  {
    var m := ms[k];
    if st[k].held == [] then (Err(IndexError), st)
    else
      var popped := st[k := MonkeyState(st[k].held[1..], st[k].count)];
      var w := Inspected(m.ringProduct, m.worryModifierParams, st[k].held[0]);
      if w.Err? then (Err(w.error), popped)
      else
        var counted := popped[k := MonkeyState(popped[k].held, popped[k].count + 1)];
        match m.Throw(w.value)
        case Err(e) => (Err(e), counted)
        case Ok(t) =>
          if 0 <= t < |ms| then (Ok(()), counted[t := MonkeyState(counted[t].held + [w.value], counted[t].count)])
          else (Err(KeyError), counted)
  }

  /** The `while monkey.held_items` loop of monkey `k`, one unit of fuel per throw. */
  function Turn(ms: seq<Monkey>, st: seq<MonkeyState>, k: nat, fuel: nat): (r: Run)
    requires |st| == |ms| && k < |ms|
    ensures |r.states| == |ms| && r.fuel <= fuel
    decreases fuel
  {
    if st[k].held == [] then Run(Done(()), st, fuel)
    else if fuel == 0 then Run(OutOfFuel, st, 0)
    else
      var (res, next) := ThrowStep(ms, st, k);
      if res.Err? then Run(Failed(res.error), next, fuel - 1) else Turn(ms, next, k, fuel - 1)
  }

  /** Monkeys `0` to `k - 1` take their turns in order; the first that does not finish ends the run. */
  function Turns(ms: seq<Monkey>, st: seq<MonkeyState>, k: nat, fuel: nat): (r: Run)
    requires |st| == |ms| && k <= |ms|
    ensures |r.states| == |ms| && r.fuel <= fuel
  {
    if k == 0 then Run(Done(()), st, fuel)
    else
      var p := Turns(ms, st, k - 1, fuel);
      if p.outcome.Done? then Turn(ms, p.states, k - 1, p.fuel) else p
  }

  /** `n` rounds, each of them every monkey's turn. */
  function Rounds(ms: seq<Monkey>, st: seq<MonkeyState>, n: nat, fuel: nat): (r: Run)
    requires |st| == |ms|
    ensures |r.states| == |ms| && r.fuel <= fuel
  {
    if n == 0 then Run(Done(()), st, fuel)
    else
      var p := Rounds(ms, st, n - 1, fuel);
      if p.outcome.Done? then Turns(ms, p.states, |ms|, p.fuel) else p
  }

  /** One step of `Turn`: an empty monkey is done, no fuel stops it, else one throw and the rest. */
  lemma TurnStep(ms: seq<Monkey>, st: seq<MonkeyState>, k: nat, fuel: nat)
    requires |st| == |ms| && k < |ms|
    ensures st[k].held == [] ==> Turn(ms, st, k, fuel) == Run(Done(()), st, fuel)
    ensures st[k].held != [] && fuel == 0 ==> Turn(ms, st, k, fuel) == Run(OutOfFuel, st, 0)
    ensures st[k].held != [] && fuel > 0 ==>
              var step := ThrowStep(ms, st, k);
              Turn(ms, st, k, fuel)
              == if step.0.Err? then Run(Failed(step.0.error), step.1, fuel - 1) else Turn(ms, step.1, k, fuel - 1)
  {
  }

  lemma {:induction false} TurnsStopped(ms: seq<Monkey>, st: seq<MonkeyState>, i: nat, k: nat, fuel: nat)
    requires |st| == |ms| && i <= k <= |ms| && !Turns(ms, st, i, fuel).outcome.Done?
    ensures Turns(ms, st, k, fuel) == Turns(ms, st, i, fuel)
    decreases k
  {
    if k > i {
      TurnsStopped(ms, st, i, k - 1, fuel);
    }
  }

  lemma {:induction false} RoundsStopped(ms: seq<Monkey>, st: seq<MonkeyState>, i: nat, n: nat, fuel: nat)
    requires |st| == |ms| && i <= n && !Rounds(ms, st, i, fuel).outcome.Done?
    ensures Rounds(ms, st, n, fuel) == Rounds(ms, st, i, fuel)
    decreases n
  {
    if n > i {
      RoundsStopped(ms, st, i, n - 1, fuel);
    }
  }

  // ------------------------------------------------ what the rounds keep

  /** The number of items all the monkeys hold. */
  function Total(st: seq<MonkeyState>): int
  {
    if st == [] then 0 else Total(st[..|st| - 1]) + |st[|st| - 1].held|
  }

  /** The number of inspections of all the monkeys. */
  function Inspections(st: seq<MonkeyState>): int
  {
    if st == [] then 0 else Inspections(st[..|st| - 1]) + st[|st| - 1].count
  }

  lemma {:induction false} TotalUpdate(st: seq<MonkeyState>, i: nat, s: MonkeyState)
    requires i < |st|
    ensures Total(st[i := s]) == Total(st) - |st[i].held| + |s.held|
    ensures Inspections(st[i := s]) == Inspections(st) - st[i].count + s.count
  {
    var n := |st| - 1;
    assert st[i := s][..n] == if i < n then st[..n][i := s] else st[..n];
    if i < n {
      TotalUpdate(st[..n], i, s);
    }
  }

  /**
   * From `st` to `st'`, `used` throws: the items are the same in number,
   * there are `used` more inspections, and no monkey's count went down.
   */
  predicate Moved(st: seq<MonkeyState>, st': seq<MonkeyState>, used: int)
  {
    && |st'| == |st|
    && Total(st') == Total(st)
    && Inspections(st') == Inspections(st) + used
    && forall i :: 0 <= i < |st| ==> st[i].count <= st'[i].count
  }

  lemma MovedChain(a: seq<MonkeyState>, b: seq<MonkeyState>, c: seq<MonkeyState>, u: int, v: int)
    requires Moved(a, b, u) && Moved(b, c, v)
    ensures Moved(a, c, u + v)
  {
  }

  /**
   * A throw that succeeds moves the inspected item from the front of monkey
   * `k`'s items to the end of its target's, counts one inspection for monkey
   * `k` alone and leaves every other monkey as it was.
   */
  lemma ThrowStepMoves(ms: seq<Monkey>, st: seq<MonkeyState>, k: nat)
    requires |st| == |ms| && k < |ms| && ThrowStep(ms, st, k).0.Ok?
    ensures st[k].held != []
    ensures var next := ThrowStep(ms, st, k).1;
            var w := Inspected(ms[k].ringProduct, ms[k].worryModifierParams, st[k].held[0]);
            w.Ok? && ms[k].Throw(w.value).Ok?
            && var t := ms[k].Throw(w.value).value;
               0 <= t < |st|
               && next[t].held == (if t == k then st[k].held[1..] else st[t].held) + [w.value]
               && (t != k ==> next[k].held == st[k].held[1..])
               && next[k].count == st[k].count + 1
               && (forall i :: 0 <= i < |st| && i != k && i != t ==> next[i] == st[i])
               && (forall i :: 0 <= i < |st| && i != k ==> next[i].count == st[i].count)
    ensures Moved(st, ThrowStep(ms, st, k).1, 1)
  {
    var m := ms[k];
    var popped := st[k := MonkeyState(st[k].held[1..], st[k].count)];
    var w := Inspected(m.ringProduct, m.worryModifierParams, st[k].held[0]).value;
    var counted := popped[k := MonkeyState(popped[k].held, popped[k].count + 1)];
    var t := m.Throw(w).value;
    var next := counted[t := MonkeyState(counted[t].held + [w], counted[t].count)];
    assert ThrowStep(ms, st, k).1 == next;
    TotalUpdate(st, k, popped[k]);
    TotalUpdate(popped, k, counted[k]);
    TotalUpdate(counted, t, next[t]);
  }

  /**
   * A turn that does not fail moves items without losing any, counts one
   * inspection per unit of fuel, and when it finishes monkey `k` holds
   * nothing.
   */
  lemma {:induction false} TurnMoves(ms: seq<Monkey>, st: seq<MonkeyState>, k: nat, fuel: nat)
    requires |st| == |ms| && k < |ms| && !Turn(ms, st, k, fuel).outcome.Failed?
    ensures var r := Turn(ms, st, k, fuel);
            Moved(st, r.states, fuel - r.fuel) && (r.outcome.Done? ==> r.states[k].held == [])
    decreases fuel
  {
    if st[k].held != [] && fuel > 0 {
      var next := ThrowStep(ms, st, k).1;
      ThrowStepMoves(ms, st, k);
      TurnMoves(ms, next, k, fuel - 1);
      var r := Turn(ms, next, k, fuel - 1);
      MovedChain(st, next, r.states, 1, fuel - 1 - r.fuel);
    }
  }

  lemma {:induction false} TurnsMove(ms: seq<Monkey>, st: seq<MonkeyState>, k: nat, fuel: nat)
    requires |st| == |ms| && k <= |ms| && !Turns(ms, st, k, fuel).outcome.Failed?
    ensures var r := Turns(ms, st, k, fuel); Moved(st, r.states, fuel - r.fuel)
  {
    if k > 0 {
      var p := Turns(ms, st, k - 1, fuel);
      TurnsMove(ms, st, k - 1, fuel);
      if p.outcome.Done? {
        TurnMoves(ms, p.states, k - 1, p.fuel);
        var r := Turn(ms, p.states, k - 1, p.fuel);
        MovedChain(st, p.states, r.states, fuel - p.fuel, p.fuel - r.fuel);
      }
    }
  }

  /**
   * Rounds that do not fail pass items between the monkeys without creating
   * or losing any, and every unit of fuel spent is one inspection.
   */
  lemma {:induction false} RoundsMove(ms: seq<Monkey>, st: seq<MonkeyState>, n: nat, fuel: nat)
    requires |st| == |ms| && !Rounds(ms, st, n, fuel).outcome.Failed?
    ensures var r := Rounds(ms, st, n, fuel); Moved(st, r.states, fuel - r.fuel)
  {
    if n > 0 {
      var p := Rounds(ms, st, n - 1, fuel);
      RoundsMove(ms, st, n - 1, fuel);
      if p.outcome.Done? {
        TurnsMove(ms, p.states, |ms|, p.fuel);
        var r := Turns(ms, p.states, |ms|, p.fuel);
        MovedChain(st, p.states, r.states, fuel - p.fuel, p.fuel - r.fuel);
      }
    }
  }

  // ------------------------------------------------ the loops in place

  /** The result of `ThrowStep`, case by case: the item taken, then counted, then caught. */
  lemma ThrowStepCases(ms: seq<Monkey>, st: seq<MonkeyState>, k: nat)
    requires |st| == |ms| && k < |ms| && st[k].held != []
    ensures var w := Inspected(ms[k].ringProduct, ms[k].worryModifierParams, st[k].held[0]);
            var popped := st[k := MonkeyState(st[k].held[1..], st[k].count)];
            var counted := st[k := MonkeyState(st[k].held[1..], st[k].count + 1)];
            var step := ThrowStep(ms, st, k);
            && (w.Err? ==> step.0 == Err(w.error) && step.1 == popped)
            && (w.Ok? && ms[k].Throw(w.value).Err? ==> step.0 == Err(ms[k].Throw(w.value).error) && step.1 == counted)
            && (w.Ok? && ms[k].Throw(w.value).Ok? ==>
                  var t := ms[k].Throw(w.value).value;
                  if 0 <= t < |ms| then
                    step.0 == Ok(()) && step.1 == counted[t := MonkeyState(counted[t].held + [w.value], counted[t].count)]
                  else step.0 == Err(KeyError) && step.1 == counted)
  {
    var popped := st[k := MonkeyState(st[k].held[1..], st[k].count)];
    var counted := st[k := MonkeyState(st[k].held[1..], st[k].count + 1)];
    assert popped[k := MonkeyState(popped[k].held, popped[k].count + 1)] == counted;
  }

  /**
   * `monkey.inspect_and_throw()` for monkey `k`: what is left of the pass is
   * the catch, or the `KeyError` of a target that is not a monkey.
   */
  method InspectOne(ms: seq<Monkey>, k: nat) returns (thrown: Result<(int, Item)>)
    requires k < |ms| && forall i, j :: 0 <= i < j < |ms| ==> ms[i] != ms[j]
    modifies ms[k]
    ensures var step := ThrowStep(ms, old(States(ms)), k);
            match thrown
            case Err(e) => step == (Err(e), States(ms))
            case Ok((t, w)) =>
              if 0 <= t < |ms| then step == (Ok(()), States(ms)[t := MonkeyState(States(ms)[t].held + [w], States(ms)[t].count)])
              else step == (Err(KeyError), States(ms))
  {
    ghost var st := States(ms);
    if st[k].held != [] {
      ThrowStepCases(ms, st, k);
    }
    thrown := ms[k].InspectAndThrow();
    assert States(ms) == st[k := MonkeyState(ms[k].heldItems, ms[k].inspectionCount)];
  }

  /** One pass of the `while` body for monkey `k`, on the monkeys themselves. */
  method ThrowOne(ms: seq<Monkey>, k: nat) returns (r: Result<()>)
    requires k < |ms| && forall i, j :: 0 <= i < j < |ms| ==> ms[i] != ms[j]
    modifies set i | 0 <= i < |ms| :: ms[i]
    ensures (r, States(ms)) == ThrowStep(ms, old(States(ms)), k)
  {
    var thrown := InspectOne(ms, k);
    if thrown.Err? {
      return Err(thrown.error);
    }
    var (target, item) := thrown.value;
    if !(0 <= target < |ms|) {
      return Err(KeyError);
    }
    CatchOne(ms, target, item);
    return Ok(());
  }

  /** `end_state[target_monkey].catch_item(item)`. */
  method CatchOne(ms: seq<Monkey>, t: nat, item: Item)
    requires t < |ms| && forall i, j :: 0 <= i < j < |ms| ==> ms[i] != ms[j]
    modifies ms[t]
    ensures States(ms) == old(States(ms))[t := MonkeyState(old(ms[t].heldItems) + [item], old(ms[t].inspectionCount))]
  {
    ghost var st := States(ms);
    ms[t].CatchItem(item);
    assert States(ms) == st[t := MonkeyState(ms[t].heldItems, ms[t].inspectionCount)];
  }

  /**
   * One turn of the `while monkey.held_items` loop, given that monkey `k`
   * holds something: out of fuel it stops, otherwise it throws once. What
   * remains of the turn is the turn from the new states.
   */
  method TurnOnce(ms: seq<Monkey>, ghost st: seq<MonkeyState>, k: nat, fuel: nat) returns (stop: Option<Outcome<()>>, fuel': nat)
    requires k < |ms| && forall i, j :: 0 <= i < j < |ms| ==> ms[i] != ms[j]
    requires st == States(ms) && st[k].held != []
    modifies set i | 0 <= i < |ms| :: ms[i]
    ensures stop.None? ==> Turn(ms, st, k, fuel) == Turn(ms, States(ms), k, fuel')
    ensures stop.Some? ==> Turn(ms, st, k, fuel) == Run(stop.value, States(ms), fuel')
    ensures fuel' < fuel || stop.Some?
  {
    TurnStep(ms, st, k, fuel);
    if fuel == 0 {
      stop, fuel' := Some(OutOfFuel), 0;
    } else {
      var thrown := ThrowOne(ms, k);
      ghost var next := States(ms);
      assert (thrown, next) == ThrowStep(ms, st, k);
      stop := if thrown.Err? then Some(Failed(thrown.error)) else None;
      fuel' := fuel - 1;
    }
  }

  /** The `while monkey.held_items` loop of monkey `k`, one unit of fuel per throw. */
  method ThrowAll(ms: seq<Monkey>, k: nat, fuel: nat) returns (r: Outcome<()>, fuel': nat)
    requires k < |ms| && forall i, j :: 0 <= i < j < |ms| ==> ms[i] != ms[j]
    modifies set i | 0 <= i < |ms| :: ms[i]
    ensures Turn(ms, old(States(ms)), k, fuel) == Run(r, States(ms), fuel')
  {
    ghost var goal := Turn(ms, States(ms), k, fuel);
    var monkey := ms[k];
    fuel' := fuel;
    while monkey.heldItems != []
      invariant goal == Turn(ms, States(ms), k, fuel')
      decreases fuel'
    {
      var stop;
      stop, fuel' := TurnOnce(ms, States(ms), k, fuel');
      if stop.Some? {
        return stop.value, fuel';
      }
    }
    TurnStep(ms, States(ms), k, fuel');
    return Done(()), fuel';
  }

  /** Monkey `k`'s turn within a round that started from `st` with `fuel`. */
  method NextTurn(ms: seq<Monkey>, ghost st: seq<MonkeyState>, k: nat, ghost fuel: nat, f: nat) returns (step: Outcome<()>, f': nat)
    requires k < |ms| && forall i, j :: 0 <= i < j < |ms| ==> ms[i] != ms[j]
    requires |st| == |ms| && Reached(Turns(ms, st, k, fuel), States(ms), f)
    modifies set i | 0 <= i < |ms| :: ms[i]
    ensures Turns(ms, st, k + 1, fuel) == Run(step, States(ms), f')
  {
    ghost var before := States(ms);
    step, f' := ThrowAll(ms, k, f);
    assert Turns(ms, st, k + 1, fuel) == Turn(ms, before, k, f);
  }

  /** One round, `for k in range(len(monkey_tracker))`: every monkey's turn in order. */
  method OneRound(ms: seq<Monkey>, fuel: nat) returns (r: Outcome<()>, fuel': nat)
    requires forall i, j :: 0 <= i < j < |ms| ==> ms[i] != ms[j]
    modifies set i | 0 <= i < |ms| :: ms[i]
    ensures Turns(ms, old(States(ms)), |ms|, fuel) == Run(r, States(ms), fuel')
  {
    ghost var st := States(ms);
    fuel' := fuel;
    for k := 0 to |ms|
      invariant Reached(Turns(ms, st, k, fuel), States(ms), fuel')
    {
      var step;
      step, fuel' := NextTurn(ms, st, k, fuel, fuel');
      if !step.Done? {
        TurnsStopped(ms, st, k + 1, |ms|, fuel);
        return step, fuel';
      }
      assert step.value == ();
    }
    assert Turns(ms, st, |ms|, fuel).outcome.value == ();
    return Done(()), fuel';
  }

  /**
   * `simulate_monkey_rounds`: round after round, monkey after monkey, each
   * throws all it holds. The monkeys end in the states the rounds define;
   * unless a throw fails, no item has been created or lost.
   */
  method SimulateMonkeyRounds(ms: seq<Monkey>, numRounds: int, fuel: nat) returns (r: Outcome<()>)
    requires forall i, j :: 0 <= i < j < |ms| ==> ms[i] != ms[j]
    modifies set i | 0 <= i < |ms| :: ms[i]
    ensures var run := Rounds(ms, old(States(ms)), Max(numRounds, 0), fuel);
            r == run.outcome && States(ms) == run.states
    ensures !r.Failed? ==> Total(States(ms)) == Total(old(States(ms)))
  {
    ghost var st0 := States(ms);
    var n := if numRounds > 0 then numRounds else 0;
    var f: nat := fuel;
    for round := 0 to n
      invariant Reached(Rounds(ms, st0, round, fuel), States(ms), f)
    {
      var step;
      step, f := OneRound(ms, f);
      if !step.Done? {
        RoundsStopped(ms, st0, round + 1, n, fuel);
        if !step.Failed? {
          RoundsMove(ms, st0, n, fuel);
        }
        return step;
      }
    }
    RoundsMove(ms, st0, n, fuel);
    assert Rounds(ms, st0, n, fuel).outcome.value == ();
    return Done(());
  }

  /** The inspection counts of the states, in their order. */
  function Counts(st: seq<MonkeyState>): (r: seq<int>)
    ensures |r| == |st| && forall i :: 0 <= i < |st| ==> r[i] == st[i].count
  {
    if st == [] then [] else Counts(st[..|st| - 1]) + [st[|st| - 1].count]
  }

  /** The monkeys' inspection counts, in their order. */
  function InspectionCounts(ms: seq<Monkey>): (r: seq<int>)
    reads set i | 0 <= i < |ms| :: ms[i]
    ensures |r| == |ms| && forall i :: 0 <= i < |ms| ==> r[i] == ms[i].inspectionCount
  {
    if ms == [] then [] else InspectionCounts(ms[..|ms| - 1]) + [ms[|ms| - 1].inspectionCount]
  }

  /** The reduction of `get_monkey_business`: the product of the last two sorted counts. */
  function MonkeyBusiness(counts: seq<int>): (r: Result<int>)
    ensures r.Err? <==> counts == []
    ensures r.Err? ==> r.error == TypeError
    ensures |counts| == 1 ==> r == Ok(counts[0])
  {
    var s := SortBy(counts, x => x);
    if |s| == 0 then Err(TypeError)
    else if |s| == 1 then
      assert s[0] in multiset(s);
      Ok(s[0])
    else Ok(s[|s| - 2] * s[|s| - 1])
  }

  /**
   * With two or more counts, the monkey business is the product of two of
   * them that are at least as large as every other count.
   */
  lemma TwoLargest(counts: seq<int>)
    requires |counts| >= 2
    ensures exists a, b :: multiset{a, b} <= multiset(counts) && a <= b
              && MonkeyBusiness(counts) == Ok(a * b)
              && forall x :: x in multiset(counts) - multiset{a, b} ==> x <= a
  {
    var s := SortBy(counts, x => x);
    SortBySorted(counts, x => x);
    TopTwo(s);
    assert MonkeyBusiness(counts) == Ok(s[|s| - 2] * s[|s| - 1]);
  }

  /** In a sorted sequence the last two elements are in order and bound everything before them. */
  lemma TopTwo(s: seq<int>)
    requires |s| >= 2 && SortedBy(s, x => x)
    ensures var a, b := s[|s| - 2], s[|s| - 1];
            multiset{a, b} <= multiset(s) && a <= b
            && forall x :: x in multiset(s) - multiset{a, b} ==> x <= a
  {
    var n := |s|;
    var a, b := s[n - 2], s[n - 1];
    var rest := s[..n - 2];
    assert s == rest + [a, b];
    assert multiset(s) == multiset(rest) + multiset{a, b};
    Below(s, n - 2);
  }

  /** In a sorted sequence every element before index `k` is at most the one at `k`. */
  lemma Below(s: seq<int>, k: nat)
    requires k < |s| && SortedBy(s, x => x)
    ensures forall x :: x in multiset(s[..k]) ==> x <= s[k]
  {
    forall x | x in multiset(s[..k])
      ensures x <= s[k]
    {
      var j :| 0 <= j < k && s[..k][j] == x;
      assert s[j] == x;
    }
  }

  /**
   * `get_monkey_business` after the monkeys are set up: the rounds, then the
   * reduction of the counts the rounds leave.
   */
  method GetMonkeyBusiness(ms: seq<Monkey>, numRounds: int, fuel: nat) returns (r: Outcome<int>)
    requires forall i, j :: 0 <= i < j < |ms| ==> ms[i] != ms[j]
    modifies set i | 0 <= i < |ms| :: ms[i]
    ensures var run := Rounds(ms, old(States(ms)), Max(numRounds, 0), fuel);
            && (r.OutOfFuel? <==> run.outcome.OutOfFuel?)
            && (run.outcome.Failed? ==> r == Failed(run.outcome.error))
            && (run.outcome.Done? ==> match MonkeyBusiness(Counts(run.states))
                                      case Ok(v) => r == Done(v)
                                      case Err(e) => r == Failed(e))
    ensures r.Done? ==> Ok(r.value) == MonkeyBusiness(InspectionCounts(ms))
  {
    var sim := SimulateMonkeyRounds(ms, numRounds, fuel);
    if sim.OutOfFuel? {
      return OutOfFuel;
    } else if sim.Failed? {
      return Failed(sim.error);
    }
    assert InspectionCounts(ms) == Counts(States(ms));
    var business := MonkeyBusiness(InspectionCounts(ms));
    if business.Err? {
      return Failed(business.error);
    }
    return Done(business.value);
  }
}
