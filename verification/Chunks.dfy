/** Successive fixed-size slices of a list (lithops/utils.py, iterchunks), and the
    rounded-up division that several callers use to predict how many slices there are. */
module Chunks {

  function Min(a: int, b: int): int {
    if a < b then a else b
  }

  /** `a // b + (a % b > 0)`, as the source writes it. */
  function CeilDiv(a: nat, b: nat): nat
    requires b > 0
  {
    a / b + if a % b > 0 then 1 else 0
  }

  /** CeilDiv is the least q with a <= q * b. */
  lemma CeilDivIsLeast(a: nat, b: nat, q: nat)
    requires b > 0
    ensures a <= q * b <==> CeilDiv(a, b) <= q
  {
    var d, r := a / b, a % b;
    var low, high, here := d * b, (d + 1) * b, q * b;
    assert a == low + r && 0 <= r < b;
    assert high == low + b by {
      Distribute(d, 1, b);
    }
    if q <= d {
      MulMonotone(q, d, b);
      assert here <= low;
      assert q == d ==> here == low;
    } else {
      MulMonotone(d + 1, q, b);
      assert high <= here;
    }
    if q < d {
      MulMonotone(q + 1, d, b);
      Distribute(q, 1, b);
      assert here + b <= low;
    }
  }

  lemma Distribute(x: int, y: int, b: int)
    ensures (x + y) * b == x * b + y * b
  {
  }

  lemma MulMonotone(x: int, y: int, b: nat)
    requires x <= y
    ensures x * b <= y * b
  {
  }

  /** Dropping one full slice lowers the count by one. */
  lemma CeilDivStep(a: nat, b: nat)
    requires b > 0 && a >= b
    ensures CeilDiv(a, b) == CeilDiv(a - b, b) + 1
  {
    var q := CeilDiv(a - b, b);
    CeilDivIsLeast(a - b, b, q);
    Distribute(q, 1, b);
    CeilDivIsLeast(a, b, q + 1);
    if CeilDiv(a, b) <= q {
      CeilDivIsLeast(a, b, q);
      assert q > 0;
      Distribute(q, -1, b);
      CeilDivIsLeast(a - b, b, q - 1);
    }
  }

  /** Python's `lst[from:to]` for positions that are not negative. */
  function PySlice<T>(lst: seq<T>, from: nat, to: nat): seq<T> {
    if Min(from, |lst|) <= Min(to, |lst|) then lst[Min(from, |lst|)..Min(to, |lst|)] else []
  }

  function IterChunks<T>(lst: seq<T>, n: nat): (chunks: seq<seq<T>>)
    requires n > 0
    decreases |lst|
  {
    if lst == [] then []
    else if |lst| <= n then [lst]
    else [lst[..n]] + IterChunks(lst[n..], n)
  }

  function Flatten<T>(chunks: seq<seq<T>>): seq<T> {
    if chunks == [] then [] else chunks[0] + Flatten(chunks[1..])
  }

  lemma {:induction false} FlattenConcat<T>(a: seq<seq<T>>, b: seq<seq<T>>)
    ensures Flatten(a + b) == Flatten(a) + Flatten(b)
  {
    if a == [] {
      assert a + b == b;
    } else {
      FlattenConcat(a[1..], b);
      assert (a + b)[1..] == a[1..] + b && (a + b)[0] == a[0];
      assert a[0] + (Flatten(a[1..]) + Flatten(b)) == (a[0] + Flatten(a[1..])) + Flatten(b);
    }
  }

  /** No element is lost, repeated or moved. */
  lemma {:induction false} ChunksFlatten<T>(lst: seq<T>, n: nat)
    requires n > 0
    ensures Flatten(IterChunks(lst, n)) == lst
    decreases |lst|
  {
    if lst == [] {
    } else if |lst| <= n {
      assert Flatten([lst]) == lst + Flatten([]);
    } else {
      ChunksFlatten(lst[n..], n);
      var rest := IterChunks(lst[n..], n);
      assert ([lst[..n]] + rest)[1..] == rest;
    }
  }

  /** The count the callers predict is the count there is. */
  lemma {:induction false} ChunkCount<T>(lst: seq<T>, n: nat)
    requires n > 0
    ensures |IterChunks(lst, n)| == CeilDiv(|lst|, n)
    decreases |lst|
  {
    if lst == [] {
    } else if |lst| <= n {
      CeilDivIsLeast(|lst|, n, 1);
      CeilDivIsLeast(|lst|, n, 0);
    } else {
      CeilDivStep(|lst|, n);
      ChunkCount(lst[n..], n);
    }
  }

  /** Slice i holds the n positions from start == i*n on, cut at the end of the list. */
  lemma {:induction false} ChunkAt<T>(lst: seq<T>, n: nat, i: nat, start: nat)
    requires n > 0 && start == i * n
    ensures i < |IterChunks(lst, n)| <==> start < |lst|
    ensures start < |lst| ==> IterChunks(lst, n)[i] == lst[start..Min(start + n, |lst|)]
    decreases i
  {
    if i > 0 {
      assert start - n == (i - 1) * n;
      MulMonotone(0, i - 1, n);
      if |lst| > n {
        ChunkAt(lst[n..], n, i - 1, start - n);
      }
    }
  }

  /** Slicing a list in two at a multiple of n and chunking each part gives the
      same slices as chunking the whole. */
  lemma {:induction false} ChunksSplit<T>(lst: seq<T>, n: nat, k: nat, cut: nat)
    requires n > 0 && cut == k * n && cut <= |lst|
    ensures IterChunks(lst[..cut], n) + IterChunks(lst[cut..], n) == IterChunks(lst, n)
    decreases k
  {
    if k == 0 {
      assert lst[..0] == [] && lst[0..] == lst;
      assert IterChunks<T>([], n) + IterChunks(lst, n) == IterChunks(lst, n);
    } else if cut == |lst| {
      assert lst[..cut] == lst && lst[cut..] == [];
      assert IterChunks(lst, n) + IterChunks<T>([], n) == IterChunks(lst, n);
    } else {
      Distribute(k, -1, n);
      MulMonotone(0, k - 1, n);
      ChunksSplitStep(lst, n, cut);
      ChunksSplit(lst[n..], n, k - 1, cut - n);
      var first, front, back := lst[..n], IterChunks(lst[n..][..cut - n], n), IterChunks(lst[cut..], n);
      assert ([first] + front) + back == [first] + (front + back);
    }
  }

  lemma ChunksSplitStep<T>(lst: seq<T>, n: nat, cut: nat)
    requires 0 < n <= cut < |lst|
    ensures IterChunks(lst, n) == [lst[..n]] + IterChunks(lst[n..], n)
    ensures lst[n..][cut - n..] == lst[cut..]
    ensures IterChunks(lst[..cut], n) == [lst[..n]] + IterChunks(lst[n..][..cut - n], n)
  {
    assert lst[..cut][n..] == lst[n..][..cut - n];
    assert lst[..cut][..n] == lst[..n];
    if cut == n {
      assert lst[..cut] == lst[..n];
    }
  }

  /** Position k of slice w is position w*n + k of the list, and every position of the
      list is such a position. */
  lemma ChunkElement<T>(lst: seq<T>, n: nat, w: nat, k: nat, start: nat)
    requires k < n && start == w * n
    ensures w < |IterChunks(lst, n)| && k < |IterChunks(lst, n)[w]| <==> start + k < |lst|
    ensures start + k < |lst| ==> IterChunks(lst, n)[w][k] == lst[start + k]
    ensures w < |IterChunks(lst, n)| ==> |IterChunks(lst, n)[w]| <= n
  {
    ChunkAt(lst, n, w, start);
  }

  lemma QuotientUnique(n: nat, w: nat, k: nat, w': nat, k': nat)
    requires k < n && k' < n && w * n + k == w' * n + k'
    ensures w == w' && k == k'
  {
    assert (w + 1) * n == w * n + n && (w' + 1) * n == w' * n + n;
    if w < w' {
      MulMonotone(w + 1, w', n);
    } else if w' < w {
      MulMonotone(w' + 1, w, n);
    }
  }
}
