/**
 * The random source, as an oracle. A stream `rng` gives the raw value of every draw, numbered
 * from a position that each draw advances by one. The calls follow CPython's structure:
 * `random.choice(xs)` indexes xs with `_randbelow(len(xs))`, `random.randint(a, b)` is
 * `a + _randbelow(b - a + 1)`, and `random.shuffle` is Fisher-Yates from the end with one
 * `_randbelow(i + 1)` per position i. Each `_randbelow(n)` is abstracted to one draw, `rng(pos) % n`
 * (CPython draws `getrandbits` and may reject and redraw). Every outcome of those calls is the
 * outcome of some stream, so a property proved for all streams holds whatever is drawn.
 */
module Random {
  type Stream = nat -> nat

  /** `_randbelow(n)`, the index `random.choice` takes on a list of length n: one draw below n. */
  function Below(rng: Stream, pos: nat, n: nat): (r: nat)
    requires n > 0
    ensures r < n
  {
    rng(pos) % n
  }

  /** `random.randint(lo, hi)`: a value in the inclusive range. */
  function RandInt(rng: Stream, pos: nat, lo: int, hi: int): (r: int)
    requires lo <= hi
    ensures lo <= r <= hi
  {
    lo + Below(rng, pos, hi - lo + 1)
  }

  /** Number of draws `random.shuffle` makes on a list of length n. */
  function ShuffleDraws(n: nat): nat
  {
    if n == 0 then 0 else n - 1
  }

  /**
   * `random.shuffle`: for i from |xs|-1 down to 1, swap xs[i] with xs[j] for a j drawn below i+1.
   * The result is a permutation of the input.
   */
  function Shuffle<T>(rng: Stream, pos: nat, xs: seq<T>): (r: seq<T>)
    ensures multiset(r) == multiset(xs)
  {
    if |xs| == 0 then xs else ShuffleDown(rng, pos, xs, |xs| - 1)
  }

  function ShuffleDown<T>(rng: Stream, pos: nat, xs: seq<T>, i: nat): (r: seq<T>)
    requires i < |xs|
    ensures multiset(r) == multiset(xs)
    decreases i
  {
    if i == 0 then xs
    else
      var j := Below(rng, pos, i + 1);
      var swapped := xs[i := xs[j]][j := xs[i]];
      SwapPermutes(xs, j, i);
      ShuffleDown(rng, pos + 1, swapped, i - 1)
  }

  /** Swapping two elements keeps the same elements. */
  lemma SwapPermutes<T>(xs: seq<T>, j: nat, i: nat)
    requires j <= i < |xs|
    ensures multiset(xs[i := xs[j]][j := xs[i]]) == multiset(xs)
  {
    if j != i {
      var a := xs[i := xs[j]];
      assert multiset(a) == multiset(xs) - multiset{xs[i]} + multiset{xs[j]};
      assert a[j] == xs[j];
      assert multiset(a[j := xs[i]]) == multiset(a) - multiset{xs[j]} + multiset{xs[i]};
    }
  }

  /** Shuffling keeps exactly the same elements (what the docking search needs of it). */
  lemma ShuffleSameElements<T>(rng: Stream, pos: nat, xs: seq<T>, x: T)
    ensures x in Shuffle(rng, pos, xs) <==> x in xs
    ensures |Shuffle(rng, pos, xs)| == |xs|
  {
    var r := Shuffle(rng, pos, xs);
    assert x in r <==> x in multiset(r);
    assert |r| == |multiset(r)|;
  }
}
