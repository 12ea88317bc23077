/** Grouping a sequence into consecutive chunks of a fixed size, the last one
    possibly shorter: the reference for how the split outputs share the rows. */
module Chunking {

  function Min(a: int, b: int): int {
    if a <= b then a else b
  }

  /** `ceil(a / b)` for a positive divisor. */
  function CeilDiv(a: nat, b: nat): nat
    requires 0 < b
  {
    (a + b - 1) / b
  }

  /** Euclidean division has one quotient and one remainder. */
  lemma DivModUnique(x: int, n: int, q: int, r: int)
    requires 0 < n && 0 <= r < n && x == q * n + r
    ensures x / n == q && x % n == r
  {
    var q', r' := x / n, x % n;
    assert x == q' * n + r';
    if q > q' {
      MulMonotonic(q' + 1, q, n);
    } else if q < q' {
      MulMonotonic(q + 1, q', n);
    }
  }

  /** Products with a positive factor keep the order of the other factor. */
  lemma MulMonotonic(a: int, b: int, n: nat)
    requires a <= b
    ensures a * n <= b * n
  {
    assert b * n - a * n == (b - a) * n;
  }

  /** Within the block `(c*n, (c+1)*n]`, only its upper end is a multiple of `n`. */
  lemma MultipleInBlock(x: int, c: int, n: int)
    requires 0 < n && c * n < x <= c * n + n
    ensures (c + 1) * n == c * n + n
    ensures x % n == 0 <==> x == c * n + n
  {
    if x == (c + 1) * n {
      DivModUnique(x, n, c + 1, 0);
    } else {
      DivModUnique(x, n, c, x - c * n);
    }
  }

  /** Past a multiple of `n`, the next multiple is `n` further on. */
  lemma MultipleAfterStart(x: int, start: int, n: int)
    requires 0 < n && start % n == 0 && start < x <= start + n
    ensures x % n == 0 <==> x == start + n
  {
    DivModUnique(start, n, start / n, 0);
    MultipleInBlock(x, start / n, n);
  }

  /** Consecutive chunks of `n` items; only the last one may be shorter. */
  function Chunks<T>(s: seq<T>, n: nat): (chunks: seq<seq<T>>)
    requires 0 < n
    ensures forall j :: 0 <= j < |chunks| ==> 1 <= |chunks[j]| <= n
    decreases |s|
  {
    if s == [] then []
    else if |s| <= n then [s]
    else [s[..n]] + Chunks(s[n..], n)
  }

  function Flatten<T>(ss: seq<seq<T>>): seq<T> {
    if ss == [] then [] else ss[0] + Flatten(ss[1..])
  }

  /** Joining the chunks back together gives the original sequence. */
  lemma {:induction false} FlattenChunks<T>(s: seq<T>, n: nat)
    requires 0 < n
    ensures Flatten(Chunks(s, n)) == s
    decreases |s|
  {
    var chunks := Chunks(s, n);
    if s == [] {
    } else if |s| <= n {
      assert chunks[1..] == [];
      assert Flatten(chunks) == s + [];
    } else {
      FlattenChunks(s[n..], n);
      assert chunks[1..] == Chunks(s[n..], n);
      assert s[..n] + s[n..] == s;
    }
  }

  /** There are `ceil(|s| / n)` chunks. */
  lemma {:induction false} ChunksCount<T>(s: seq<T>, n: nat)
    requires 0 < n
    ensures |Chunks(s, n)| == CeilDiv(|s|, n)
    decreases |s|
  {
    if s == [] {
      DivModUnique(n - 1, n, 0, n - 1);
    } else if |s| <= n {
      DivModUnique(|s| + n - 1, n, 1, |s| - 1);
    } else {
      ChunksCount(s[n..], n);
      var y := |s| - 1;
      DivModUnique(y, n, y / n, y % n);
      DivModUnique(|s| + n - 1, n, y / n + 1, y % n);
    }
  }

  /** Every chunk but the last is full. */
  lemma {:induction false} ChunksFull<T>(s: seq<T>, n: nat)
    requires 0 < n
    ensures forall j :: 0 <= j < |Chunks(s, n)| - 1 ==> |Chunks(s, n)[j]| == n
    decreases |s|
  {
    if |s| > n {
      ChunksFull(s[n..], n);
      assert forall j :: 1 <= j < |Chunks(s, n)| ==> Chunks(s, n)[j] == Chunks(s[n..], n)[j - 1];
    }
  }

  /** Chunking invents nothing: every item of a chunk is an item of `s`. */
  lemma {:induction false} ChunkItems<T>(s: seq<T>, n: nat, j: nat)
    requires 0 < n && j < |Chunks(s, n)|
    ensures forall x :: x in Chunks(s, n)[j] ==> x in s
    decreases |s|
  {
    if j > 0 {
      ChunkItems(s[n..], n, j - 1);
      assert Chunks(s, n)[j] == Chunks(s[n..], n)[j - 1];
      assert forall x :: x in s[n..] ==> x in s;
    }
  }

  /** Chunk `j` is the slice of `s` that starts at `j * n`. */
  lemma {:induction false} ChunkAt<T>(s: seq<T>, n: nat, j: nat)
    requires 0 < n && j < |Chunks(s, n)|
    ensures j * n < |s|
    ensures Chunks(s, n)[j] == s[j * n .. Min((j + 1) * n, |s|)]
    decreases |s|
  {
    if j > 0 {
      var t := s[n..];
      assert Chunks(s, n)[j] == Chunks(t, n)[j - 1];
      ChunkAt(t, n, j - 1);
      var lo, hi := (j - 1) * n, Min(j * n, |t|);
      assert lo + n == j * n;
      assert hi + n == Min((j + 1) * n, |s|) by {
        assert j * n + n == (j + 1) * n;
      }
      assert t[lo .. hi] == s[lo + n .. hi + n];
    }
  }

  /** Past the chunks already taken, a full block of `n` items from `start`
      is the next chunk. */
  lemma NextChunk<T>(s: seq<T>, n: nat, start: nat, done: seq<seq<T>>)
    requires 0 < n && start + n < |s|
    requires Chunks(s, n) == done + Chunks(s[start..], n)
    ensures Chunks(s, n) == (done + [s[start .. start + n]]) + Chunks(s[start + n ..], n)
  {
    assert s[start..][..n] == s[start .. start + n];
    assert s[start..][n..] == s[start + n ..];
  }

  /** At most `n` rows left from `start` on make one last chunk. */
  lemma LastChunk<T>(s: seq<T>, n: nat, start: nat)
    requires 0 < n && start < |s| <= start + n
    ensures Chunks(s[start..], n) == [s[start..]]
  {
  }
}
