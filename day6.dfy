/** The start-of-packet marker: the first four consecutive distinct characters of the signal. */
module Day6 {
  import opened Wrappers
  import opened Text

  predicate PairwiseDistinct(w: string)
  {
    forall i, j :: 0 <= i < j < |w| ==> w[i] != w[j]
  }

  /** A window has as many distinct characters as its length exactly when no character repeats. */
  lemma {:induction false} ItemSetSize(w: string)
    ensures |CharSet(w)| <= |w|
    ensures |CharSet(w)| == |w| <==> PairwiseDistinct(w)
  {
    if w != [] {
      var n := |w| - 1;
      var front := w[..n];
      ItemSetSize(front);
      assert CharSet(w) == CharSet(front) + {w[n]};
      if w[n] in front {
        assert CharSet(w) == CharSet(front);
        var i :| 0 <= i < n && front[i] == w[n];
        assert w[i] == w[n];
      } else {
        assert |CharSet(w)| == |CharSet(front)| + 1;
        if PairwiseDistinct(front) {
          forall i, j | 0 <= i < j < |w|
            ensures w[i] != w[j]
          {
            if j < n {
              assert front[i] == w[i] && front[j] == w[j];
            } else {
              assert front[i] == w[i];
            }
          }
        }
      }
      if PairwiseDistinct(w) {
        assert PairwiseDistinct(front) by {
          forall i, j | 0 <= i < j < |front|
            ensures front[i] != front[j]
          {
            assert front[i] == w[i] && front[j] == w[j];
          }
        }
      }
    }
  }

  /** `[len(set(s[k - 4 : k])) for k in range(4, len(s))]`. */
  function WindowSizes(s: string): (r: seq<nat>)
    ensures |s| >= 4 ==> |r| == |s| - 4
    ensures |s| < 4 ==> r == []
    ensures forall j :: 0 <= j < |r| ==> r[j] == |CharSet(s[j..j + 4])|
  {
    if |s| <= 4 then [] else seq(|s| - 4, j requires 0 <= j < |s| - 4 => |CharSet(s[j..j + 4])|)
  }

  /** The first position holding 4, as the index `[0]` of the filtered list. */
  function FirstFour(xs: seq<nat>): (r: Option<nat>)
    ensures r.None? <==> forall j :: 0 <= j < |xs| ==> xs[j] != 4
    ensures r.Some? ==> r.value < |xs| && xs[r.value] == 4 && forall j :: 0 <= j < r.value ==> xs[j] != 4
  {
    if xs == [] then None
    else if xs[0] == 4 then Some(0)
    else match FirstFour(xs[1..])
      case None => None
      case Some(j) => Some(j + 1)
  }

  /** `part_1` on a given signal: where the first marker ends. */
  function Marker(signal: string): Result<nat>
  {
    match FirstFour(WindowSizes(signal))
    case None => Err(IndexError)
    case Some(j) => Ok(j + 4)
  }

  /** The four characters from `j` on are pairwise distinct. */
  predicate DistinctFrom(s: string, j: nat)
    requires j + 4 <= |s|
  {
    PairwiseDistinct(s[j..j + 4])
  }

  /**
   * The marker ends at `r` with 4 <= r <= len - 1, the four characters
   * before it are distinct, and no earlier four consecutive ones are; with
   * no such window before the last character the search fails.
   */
  lemma MarkerMeaning(signal: string)
    ensures var r := Marker(signal);
            (r.Err? <==> forall j: nat :: j + 4 < |signal| ==> !DistinctFrom(signal, j))
            && (r.Err? ==> r.error == IndexError)
            && (r.Ok? ==> 4 <= r.value <= |signal| - 1
                          && DistinctFrom(signal, r.value - 4)
                          && forall j: nat :: j < r.value - 4 ==> !DistinctFrom(signal, j))
  {
    var xs := WindowSizes(signal);
    forall j: nat | j + 4 < |signal|
      ensures xs[j] == 4 <==> DistinctFrom(signal, j)
    {
      ItemSetSize(signal[j..j + 4]);
    }
  }

  /** `part_1` on the file's text, stripped as `load_data` does. */
  function Part1(text: string): Result<nat>
  {
    Marker(Strip(text))
  }
}
