/**
 * A left scan in which every output after the first is computed from the
 * previous OUTPUT and the next input; the overlap pass of the chunker is one.
 */
module Scanning {

  /** The outputs for the inputs rest, when the output before them is prev. */
  function ScanFrom<T>(prev: T, rest: seq<T>, join: (T, T) -> T): (r: seq<T>)
    ensures |r| == |rest|
    decreases |rest|
  {
    if rest == [] then []
    else
      var y := join(prev, rest[0]);
      [y] + ScanFrom(y, rest[1..], join)
  }

  /** The first input is kept; every later one is joined to the previous output. */
  function Scan<T>(xs: seq<T>, join: (T, T) -> T): (r: seq<T>)
    ensures |r| == |xs|
  {
    if xs == [] then [] else [xs[0]] + ScanFrom(xs[0], xs[1..], join)
  }

  /** The first output after prev, and the scan continuing from it. */
  lemma ScanFromStep<T>(prev: T, rest: seq<T>, join: (T, T) -> T)
    requires rest != []
    ensures ScanFrom(prev, rest, join) == [join(prev, rest[0])] + ScanFrom(join(prev, rest[0]), rest[1..], join)
  {
  }

  /**
   * The invariant of a loop that builds a scan output by output: with the
   * first k outputs done, appending the join of the last one and input k
   * leaves the rest of the scan to go.
   */
  lemma ScanAdvance<T>(xs: seq<T>, join: (T, T) -> T, done: seq<T>, k: nat)
    requires 1 <= k < |xs| && |done| == k
    requires done + ScanFrom(done[k - 1], xs[k..], join) == Scan(xs, join)
    ensures var y := join(done[k - 1], xs[k]);
      (done + [y]) + ScanFrom(y, xs[k + 1..], join) == Scan(xs, join)
  {
    ScanFromStep(done[k - 1], xs[k..], join);
    assert xs[k..][1..] == xs[k + 1..];
  }

  lemma {:induction false} ScanFromAt<T>(prev: T, rest: seq<T>, join: (T, T) -> T, i: nat)
    requires i < |rest|
    ensures var r := ScanFrom(prev, rest, join);
      r[i] == join(if i == 0 then prev else r[i - 1], rest[i])
    decreases i
  {
    if i > 0 {
      var y := join(prev, rest[0]);
      ScanFromAt(y, rest[1..], join, i - 1);
      assert ScanFrom(prev, rest, join) == [y] + ScanFrom(y, rest[1..], join);
    }
  }

  /** The scan keeps the first input, and every later output is the join of the previous output and its input. */
  lemma ScanAt<T>(xs: seq<T>, join: (T, T) -> T, i: nat)
    requires i < |xs|
    ensures var r := Scan(xs, join);
      r[i] == if i == 0 then xs[0] else join(r[i - 1], xs[i])
  {
    if i > 0 {
      ScanFromAt(xs[0], xs[1..], join, i - 1);
    }
  }
}
