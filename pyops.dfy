/** Python's integer and list operators where they differ from Dafny's. */
module PyOps {
  import opened Wrappers

  function Abs(x: int): (r: nat)
    ensures r == x || r == -x
  {
    if x < 0 then -x else x
  }

  function Max(a: int, b: int): (r: int)
    ensures r >= a && r >= b && (r == a || r == b)
  {
    if a >= b then a else b
  }

  function Min(a: int, b: int): (r: int)
    ensures r <= a && r <= b && (r == a || r == b)
  {
    if a <= b then a else b
  }

  /** Python's `a // b`: division rounding towards minus infinity. */
  function FloorDiv(a: int, b: int): (q: int)
    requires b != 0
    ensures b > 0 ==> b * q <= a < b * q + b
    ensures b < 0 ==> b * q >= a > b * q + b
  {
    if b > 0 then a / b else (-a) / (-b)
  }

  /** Python's `a % b`: the remainder takes the sign of the divisor. */
  function PyMod(a: int, b: int): (r: int)
    requires b != 0
    ensures r == a - b * FloorDiv(a, b)
    ensures b > 0 ==> 0 <= r < b
    ensures b < 0 ==> b < r <= 0
  {
    if b > 0 then a % b else -((-a) % (-b))
  }

  /** Python's `s[i]`, a negative index counting from the end. */
  function PyIndex<T>(s: seq<T>, i: int): (r: Option<T>)
    ensures r.Some? <==> -|s| <= i < |s|
    ensures 0 <= i < |s| ==> r == Some(s[i])
    ensures -|s| <= i < 0 ==> r == Some(s[|s| + i])
  {
    if 0 <= i < |s| then Some(s[i])
    else if -|s| <= i < 0 then Some(s[|s| + i])
    else None
  }

  function Sum(s: seq<int>): int
  {
    if s == [] then 0 else Sum(s[..|s| - 1]) + s[|s| - 1]
  }

  lemma {:induction false} SumAppend(a: seq<int>, b: seq<int>)
    ensures Sum(a + b) == Sum(a) + Sum(b)
    decreases |b|
  {
    if b == [] {
      assert a + b == a;
    } else {
      assert (a + b)[..|a + b| - 1] == a + b[..|b| - 1];
      SumAppend(a, b[..|b| - 1]);
    }
  }

  /** Python's `s[:e]`; a negative `e` counts from the end. */
  function PyTake<T>(s: seq<T>, e: int): (r: seq<T>)
    ensures |r| <= |s| && r == s[..|r|]
    ensures e >= 0 ==> |r| == Min(e, |s|)
  {
    if e < 0 then s[..Max(0, |s| + e)] else s[..Min(e, |s|)]
  }

  /** Python's `s[b:]`; a negative `b` counts from the end. */
  function PyDrop<T>(s: seq<T>, b: int): (r: seq<T>)
    ensures |r| <= |s| && r == s[|s| - |r|..]
    ensures b >= 0 ==> |r| == |s| - Min(b, |s|)
  {
    if b < 0 then s[Max(0, |s| + b)..] else s[Min(b, |s|)..]
  }

  /** `s[:b] + s[b:] == s` for every integer `b`. */
  lemma TakeDrop<T>(s: seq<T>, b: int)
    ensures PyTake(s, b) + PyDrop(s, b) == s
  {
    if b < 0 {
      assert s[..Max(0, |s| + b)] + s[Max(0, |s| + b)..] == s;
    } else {
      assert s[..Min(b, |s|)] + s[Min(b, |s|)..] == s;
    }
  }
}
