/** The `grouper` helper of pycard.py: `zip_longest` over `n` references to
    one shared iterator, which cuts a sequence into consecutive groups of `n`
    and fills the last group up with a fill value. */
module Grouping {

  /** `k` copies of `x`. */
  function Repeat<T>(x: T, k: nat): (r: seq<T>)
    ensures |r| == k
    ensures forall i :: 0 <= i < k ==> r[i] == x
  {
    if k == 0 then [] else [x] + Repeat(x, k - 1)
  }

  /** The elements of all groups, one group after the other. */
  function Flatten<T>(groups: seq<seq<T>>): (r: seq<T>)
  {
    if groups == [] then [] else groups[0] + Flatten(groups[1..])
  }

  /** The groups `grouper(xs, n, fill)` yields, as a sequence of `n`-tuples.
      Each round of `zip_longest` draws `n` items from the shared iterator;
      a round in which the iterator is already exhausted at its first draw
      ends the iteration, any other round is yielded with its missing items
      replaced by `fill`. A non-positive `n` makes `[iter(xs)] * n` empty, and
      `zip_longest()` over no iterators yields nothing. */
  function Grouper<T>(xs: seq<T>, n: int, fill: T): (groups: seq<seq<T>>)
    ensures n <= 0 || xs == [] ==> groups == []
    ensures n > 0 ==> |groups| * n - n < |xs| <= |groups| * n
    ensures forall k :: 0 <= k < |groups| ==> |groups[k]| == n
    decreases |xs|
  {
    if n <= 0 || xs == [] then []
    else if |xs| <= n then [xs + Repeat(fill, n - |xs|)]
    else [xs[..n]] + Grouper(xs[n..], n, fill)
  }

  /** How many fill values `grouper` appends to a sequence of length `len`. */
  function PadCount(len: nat, n: int): (p: nat)
    requires n > 0
    ensures p < n
  {
    (n - len % n) % n
  }

  /** Undoes `Grouper`: the first `len` items of the concatenated groups. */
  function Ungroup<T>(groups: seq<seq<T>>, len: nat): (xs: seq<T>)
    requires len <= |Flatten(groups)|
    ensures |xs| == len
  {
    Flatten(groups)[..len]
  }

  lemma MulMono(a: int, b: int, n: nat)
    ensures a <= b ==> a * n <= b * n
  {
  }

  /** If `a == q * n + r` with `0 <= r < n`, then `q` and `r` are the
      quotient and the remainder of `a` by `n`. */
  lemma DivModUnique(a: int, n: int, q: int, r: int)
    requires n > 0 && a == q * n + r && 0 <= r < n
    ensures a / n == q && a % n == r
  {
    var d := a / n;
    assert a == d * n + a % n;
    MulMono(q + 1, d, n);
    MulMono(d + 1, q, n);
    assert (q + 1) * n == q * n + n && (d + 1) * n == d * n + n;
  }

  /** For `g` groups of `n` holding `len` items, the padding is the gap
      `g * n - len`. */
  lemma PadCountIsGap(len: nat, n: int, g: int)
    requires n > 0 && g * n - n < len <= g * n
    ensures PadCount(len, n) == g * n - len
  {
    if len == g * n {
      DivModUnique(len, n, g, 0);
      DivModUnique(n, n, 1, 0);
    } else {
      var r := len - (g - 1) * n;
      assert (g - 1) * n == g * n - n;
      DivModUnique(len, n, g - 1, r);
      DivModUnique(n - r, n, 0, n - r);
    }
  }

  /** `grouper(xs, n)` yields ceil(|xs| / n) groups for a positive `n`. */
  lemma GroupCount<T>(xs: seq<T>, n: int, fill: T)
    requires n > 0
    ensures |Grouper(xs, n, fill)| == (|xs| + n - 1) / n
  {
    var g := |Grouper(xs, n, fill)|;
    DivModUnique(|xs| + n - 1, n, g, |xs| + n - 1 - g * n);
  }

  /** The groups laid end to end are `xs` followed by the gap of fill
      values up to `|groups| * n`. */
  lemma {:induction false} FlattenGrouperGap<T>(xs: seq<T>, n: int, fill: T)
    requires n > 0
    ensures var groups := Grouper(xs, n, fill);
      Flatten(groups) == xs + Repeat(fill, |groups| * n - |xs|)
    decreases |xs|
  {
    var groups := Grouper(xs, n, fill);
    if xs == [] {
    } else if |xs| <= n {
      assert groups[1..] == [];
    } else {
      var rest := Grouper(xs[n..], n, fill);
      FlattenGrouperGap(xs[n..], n, fill);
      assert groups == [xs[..n]] + rest;
      assert groups[0] == xs[..n] && groups[1..] == rest;
      var g, gr := |groups|, |rest|;
      assert g == gr + 1;
      assert g * n == gr * n + n by {
        assert (gr + 1) * n == gr * n + n;
      }
      var gap := g * n - |xs|;
      assert gap == gr * n - |xs[n..]|;
      calc {
        Flatten(groups);
        xs[..n] + Flatten(rest);
        xs[..n] + (xs[n..] + Repeat(fill, gap));
        { assert xs[..n] + xs[n..] == xs; }
        xs + Repeat(fill, gap);
      }
    }
  }

  /** The groups laid end to end are `xs` followed by `PadCount(|xs|, n)`
      fill values: padding is fewer than `n` items and comes last. */
  lemma FlattenGrouper<T>(xs: seq<T>, n: int, fill: T)
    requires n > 0
    ensures Flatten(Grouper(xs, n, fill)) == xs + Repeat(fill, PadCount(|xs|, n))
  {
    FlattenGrouperGap(xs, n, fill);
    PadCountIsGap(|xs|, n, |Grouper(xs, n, fill)|);
  }

  /** `Ungroup` is a left inverse of `Grouper`: dropping the padding of the
      concatenated groups gives back the input. */
  lemma {:induction false} UngroupGrouper<T>(xs: seq<T>, n: int, fill: T)
    requires n > 0
    ensures |xs| <= |Flatten(Grouper(xs, n, fill))|
    ensures Ungroup(Grouper(xs, n, fill), |xs|) == xs
  {
    FlattenGrouper(xs, n, fill);
  }

  /** Position `j` of group `k` holds item `k * n + j` of `xs`, or the fill
      value once `xs` is used up: this determines every group completely. */
  lemma {:induction false} GrouperAt<T>(xs: seq<T>, n: int, fill: T, k: nat, j: nat)
    requires n > 0 && k < |Grouper(xs, n, fill)| && j < n
    ensures Grouper(xs, n, fill)[k][j] == if k * n + j < |xs| then xs[k * n + j] else fill
    decreases k
  {
    if k > 0 {
      assert xs != [] && |xs| > n;
      assert Grouper(xs, n, fill)[k] == Grouper(xs[n..], n, fill)[k - 1];
      GrouperAt(xs[n..], n, fill, k - 1, j);
      assert (k - 1) * n + j + n == k * n + j;
    }
  }

  /** Item `i` of `xs` lands in group `i / n`, at position `i % n`. */
  lemma GrouperIndex<T>(xs: seq<T>, n: int, fill: T, i: nat)
    requires n > 0 && i < |xs|
    ensures i / n < |Grouper(xs, n, fill)|
    ensures Grouper(xs, n, fill)[i / n][i % n] == xs[i]
  {
    var g := |Grouper(xs, n, fill)|;
    var q, r := i / n, i % n;
    assert q * n + r == i;
    MulMono(g, q, n);
    GrouperAt(xs, n, fill, q, r);
  }

  /** A group before the last is a slice of `n` items of `xs`. */
  lemma GroupBeforeLast<T>(xs: seq<T>, n: int, fill: T, k: nat)
    requires n > 0 && k + 1 < |Grouper(xs, n, fill)|
    ensures k * n + n <= |xs|
    ensures Grouper(xs, n, fill)[k] == xs[k * n..k * n + n]
  {
    var groups := Grouper(xs, n, fill);
    var g := |groups|;
    MulMono(k + 1, g - 1, n);
    assert (k + 1) * n == k * n + n && (g - 1) * n == g * n - n;
    var slice := xs[k * n..k * n + n];
    forall j | 0 <= j < n
      ensures groups[k][j] == slice[j]
    {
      GrouperAt(xs, n, fill, k, j);
    }
  }

  /** The last group is the rest of `xs` followed by the gap of fill values. */
  lemma {:induction false} LastGroup<T>(xs: seq<T>, n: int, fill: T)
    requires n > 0 && xs != []
    ensures var g := |Grouper(xs, n, fill)|;
      && (g - 1) * n < |xs|
      && Grouper(xs, n, fill)[g - 1] == xs[(g - 1) * n..] + Repeat(fill, g * n - |xs|)
  {
    var groups := Grouper(xs, n, fill);
    var g := |groups|;
    var last := (g - 1) * n;
    assert last == g * n - n;
    var tail := xs[last..] + Repeat(fill, g * n - |xs|);
    forall j | 0 <= j < n
      ensures groups[g - 1][j] == tail[j]
    {
      GrouperAt(xs, n, fill, g - 1, j);
    }
  }

  /** Padding sits only at the end of the last group: every earlier group is
      a slice of `n` items of `xs`, and the last one is the rest of `xs`
      followed by `PadCount(|xs|, n)` fill values. */
  lemma PaddingOnlyInLastGroup<T>(xs: seq<T>, n: int, fill: T)
    requires n > 0 && xs != []
    ensures var groups := Grouper(xs, n, fill);
      && (forall k :: 0 <= k < |groups| - 1 ==>
            k * n + n <= |xs| && groups[k] == xs[k * n..k * n + n])
      && (|groups| - 1) * n < |xs|
      && groups[|groups| - 1] == xs[(|groups| - 1) * n..] + Repeat(fill, PadCount(|xs|, n))
  {
    var groups := Grouper(xs, n, fill);
    var g := |groups|;
    PadCountIsGap(|xs|, n, g);
    assert PadCount(|xs|, n) == g * n - |xs|;
    LastGroup(xs, n, fill);
    forall k | 0 <= k < g - 1
      ensures k * n + n <= |xs| && groups[k] == xs[k * n..k * n + n]
    {
      GroupBeforeLast(xs, n, fill, k);
    }
  }
}
