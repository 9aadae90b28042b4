/**
 * Sequence helpers shared by the model: duplicate-free sequences, the
 * insertion order of a JavaScript `Set` or `Map` built from a sequence, the
 * consecutive slices a batch loop walks through, filtering, counting,
 * sums and sorting.
 */
module Seqs {
  import opened Wrappers

  predicate Distinct<T(==)>(s: seq<T>) {
    forall i, j | 0 <= i < j < |s| :: s[i] != s[j]
  }

  /** A duplicate-free sequence has as many elements as its set. */
  lemma {:induction false} DistinctCardinality<T>(s: seq<T>)
    requires Distinct(s)
    ensures |set x | x in s| == |s|
    decreases |s|
  {
    if |s| > 0 {
      var init := s[..|s| - 1];
      DistinctCardinality(init);
      assert (set x | x in s) == (set x | x in init) + {s[|s| - 1]};
      assert s[|s| - 1] !in init;
    }
  }

  /** Index of the first occurrence of `x` in `s`. */
  function FirstIndex<T(==)>(s: seq<T>, x: T): (i: nat)
    requires x in s
    ensures i < |s| && s[i] == x
    ensures forall j | 0 <= j < i :: s[j] != x
  {
    if s[0] == x then 0 else 1 + FirstIndex(s[1..], x)
  }

  /**
   * The elements of `s` in order of first appearance, each once: the order in
   * which a JavaScript `Set` or `Map` built by inserting `s` left to right
   * lists its entries.
   */
  function Dedup<T(==)>(s: seq<T>): seq<T>
    decreases |s|
  {
    if |s| == 0 then []
    else
      var d := Dedup(s[..|s| - 1]);
      if s[|s| - 1] in d then d else d + [s[|s| - 1]]
  }

  /** `Dedup` keeps every element of `s`, adds none, and lists each once. */
  lemma {:induction false} DedupFacts<T>(s: seq<T>)
    ensures Distinct(Dedup(s))
    ensures forall x | x in Dedup(s) :: x in s
    ensures forall x | x in s :: x in Dedup(s)
    ensures |Dedup(s)| <= |s|
    decreases |s|
  {
    if |s| > 0 {
      var init := s[..|s| - 1];
      DedupFacts(init);
      assert s == init + [s[|s| - 1]];
    }
  }

  /** Inserting one more element: it is appended when it is new, and ignored otherwise. */
  lemma DedupSnoc<T>(s: seq<T>, x: T)
    ensures Dedup(s + [x]) == if x in Dedup(s) then Dedup(s) else Dedup(s) + [x]
  {
    assert (s + [x])[..|s|] == s;
  }

  /** `s.slice(0, n)`: the first `n` elements, or all of them when there are fewer. */
  function Take<T>(s: seq<T>, n: nat): seq<T>
    decreases n
  {
    if n == 0 || |s| == 0 then [] else [s[0]] + Take(s[1..], n - 1)
  }

  lemma {:induction false} TakePrefix<T>(s: seq<T>, n: nat)
    ensures Take(s, n) == s[..Min(n, |s|)]
    decreases n
  {
    if n > 0 && |s| > 0 {
      TakePrefix(s[1..], n - 1);
      assert s[..Min(n, |s|)] == [s[0]] + s[1..][..Min(n - 1, |s| - 1)];
    }
  }

  /** A duplicate-free sequence is its own `Dedup`. */
  lemma {:induction false} DedupOfDistinct<T>(s: seq<T>)
    requires Distinct(s)
    ensures Dedup(s) == s
    decreases |s|
  {
    if |s| > 0 {
      var init := s[..|s| - 1];
      assert Distinct(init);
      DedupOfDistinct(init);
      assert s[|s| - 1] !in init;
      assert init + [s[|s| - 1]] == s;
    }
  }

  /** The first element inserted is listed first. */
  lemma {:induction false} DedupHead<T>(s: seq<T>)
    requires |s| > 0
    ensures |Dedup(s)| > 0 && Dedup(s)[0] == s[0]
    decreases |s|
  {
    DedupFacts(s);
    if |s| > 1 {
      DedupHead(s[..|s| - 1]);
      DedupFacts(s[..|s| - 1]);
    }
  }

  /** `Dedup` lists elements in the order of their first occurrence. */
  lemma {:induction false} DedupOrder<T>(s: seq<T>, i: int, j: int)
    requires 0 <= i < j < |Dedup(s)|
    ensures Dedup(s)[i] in s && Dedup(s)[j] in s
    ensures FirstIndex(s, Dedup(s)[i]) < FirstIndex(s, Dedup(s)[j])
    decreases |s|
  {
    var init, x := s[..|s| - 1], s[|s| - 1];
    var d := Dedup(init);
    DedupFacts(init);
    assert s == init + [x];
    assert Dedup(s) == if x in d then d else d + [x];
    assert Dedup(s)[i] == d[i] && d[i] in d && d[i] in init;
    FirstIndexPrefix(s, d[i]);
    if j < |d| {
      assert Dedup(s)[j] == d[j] && d[j] in d && d[j] in init;
      FirstIndexPrefix(s, d[j]);
      DedupOrder(init, i, j);
    } else {
      assert Dedup(s)[j] == x && x !in init;
      assert forall k | 0 <= k < |s| - 1 :: s[k] == init[k];
    }
  }

  lemma {:induction false} FirstIndexPrefix<T>(s: seq<T>, y: T)
    requires |s| > 0 && y in s[..|s| - 1]
    ensures FirstIndex(s, y) == FirstIndex(s[..|s| - 1], y)
  {
    FirstIndexTake(s, |s| - 1, y);
  }

  /** An element absent from `s` is first found at the end of `s + [x]`. */
  lemma FirstIndexLast<T>(s: seq<T>, x: T)
    requires x !in s
    ensures FirstIndex(s + [x], x) == |s|
  {
    assert forall j | 0 <= j < |s| :: (s + [x])[j] == s[j];
  }

  lemma {:induction false} FirstIndexTake<T>(s: seq<T>, n: nat, y: T)
    requires n <= |s| && y in s[..n]
    ensures FirstIndex(s, y) == FirstIndex(s[..n], y)
    decreases n
  {
    if s[0] != y {
      assert s[..n][1..] == s[1..][..n - 1];
      assert y in s[1..][..n - 1];
      FirstIndexTake(s[1..], n - 1, y);
    }
  }

  // ---------------------------------------------------------------- slices

  function Min(a: int, b: int): int {
    if a <= b then a else b
  }

  /**
   * The consecutive slices `s[0..k]`, `s[k..2k]`, ... that the loop
   * `for (i = 0; i < s.length; i += k) s.slice(i, i + k)` visits.
   */
  function Chunks<T>(s: seq<T>, k: nat): (cs: seq<seq<T>>)
    requires k > 0
    decreases |s|
  {
    if |s| == 0 then [] else [s[..Min(k, |s|)]] + Chunks(s[Min(k, |s|)..], k)
  }

  /** `xs.flatMap(f)`: the pieces `f(x)` for the elements of `xs`, concatenated in order. */
  function FlatMap<A, B>(f: A -> seq<B>, xs: seq<A>): seq<B>
    decreases |xs|
  {
    if |xs| == 0 then [] else FlatMap(f, xs[..|xs| - 1]) + f(xs[|xs| - 1])
  }

  lemma FlatMapStep<A, B>(f: A -> seq<B>, xs: seq<A>, i: nat)
    requires i < |xs|
    ensures FlatMap(f, xs[..i + 1]) == FlatMap(f, xs[..i]) + f(xs[i])
  {
    assert xs[..i + 1][..i] == xs[..i];
  }

  lemma {:induction false} FlatMapAppend<A, B>(f: A -> seq<B>, a: seq<A>, b: seq<A>)
    ensures FlatMap(f, a + b) == FlatMap(f, a) + FlatMap(f, b)
    decreases |b|
  {
    if |b| == 0 {
      assert a + b == a;
    } else {
      var ab, init, last := a + b, b[..|b| - 1], b[|b| - 1];
      FlatMapAppend(f, a, init);
      assert ab[..|ab| - 1] == a + init;
      assert ab[|ab| - 1] == last;
      calc {
        FlatMap(f, ab);
        FlatMap(f, a + init) + f(last);
        (FlatMap(f, a) + FlatMap(f, init)) + f(last);
        FlatMap(f, a) + (FlatMap(f, init) + f(last));
      }
    }
  }

  /** An element is in the flattened result exactly when it is in the piece of some element. */
  lemma {:induction false} FlatMapMembers<A, B>(f: A -> seq<B>, xs: seq<A>, y: B)
    ensures y in FlatMap(f, xs) <==> exists i | 0 <= i < |xs| :: y in f(xs[i])
    decreases |xs|
  {
    if |xs| > 0 {
      var init := xs[..|xs| - 1];
      FlatMapMembers(f, init, y);
      if y in FlatMap(f, init) {
        var i :| 0 <= i < |init| && y in f(init[i]);
        assert xs[i] == init[i];
      }
      if exists i | 0 <= i < |xs| :: y in f(xs[i]) {
        var i :| 0 <= i < |xs| && y in f(xs[i]);
        if i < |init| { assert init[i] == xs[i]; }
      }
    }
  }

  /** Pieces of between `lo` and `hi` elements flatten to between `lo` and `hi` times as many. */
  lemma {:induction false} FlatMapLength<A, B>(f: A -> seq<B>, xs: seq<A>, lo: nat, hi: nat)
    requires forall i | 0 <= i < |xs| :: lo <= |f(xs[i])| <= hi
    ensures lo * |xs| <= |FlatMap(f, xs)| <= hi * |xs|
    decreases |xs|
  {
    if |xs| > 0 {
      FlatMapLength(f, xs[..|xs| - 1], lo, hi);
      assert lo * |xs| == lo * (|xs| - 1) + lo;
      assert hi * |xs| == hi * (|xs| - 1) + hi;
    }
  }

  /** The slices from `i` on: the one at `i`, then those after it. */
  lemma ChunksStep<T>(s: seq<T>, i: nat, k: nat)
    requires k > 0 && i < |s|
    ensures Chunks(s[i..], k) == [s[i..Min(i + k, |s|)]] + Chunks(s[Min(i + k, |s|)..], k)
  {
    var m := Min(k, |s| - i);
    assert s[i..][..m] == s[i..Min(i + k, |s|)];
    assert s[i..][m..] == s[Min(i + k, |s|)..];
  }

  /** Counting a prefix one slice further on. */
  lemma CountExtend<T>(p: T -> bool, s: seq<T>, i: nat, j: nat)
    requires i <= j <= |s|
    ensures Count(p, s[..j]) == Count(p, s[..i]) + Count(p, s[i..j])
  {
    assert s[..j] == s[..i] + s[i..j];
    CountAppend(p, s[..i], s[i..j]);
  }

  /** Concatenation of a sequence of sequences. */
  function Flatten<T>(ss: seq<seq<T>>): seq<T>
    decreases |ss|
  {
    if |ss| == 0 then [] else Flatten(ss[..|ss| - 1]) + ss[|ss| - 1]
  }

  lemma {:induction false} FlattenCons<T>(a: seq<T>, ss: seq<seq<T>>)
    ensures Flatten([a] + ss) == a + Flatten(ss)
    decreases |ss|
  {
    if |ss| > 0 {
      var init := ss[..|ss| - 1];
      FlattenCons(a, init);
      assert ([a] + ss)[..|ss|] == [a] + init;
    }
  }

  /** One more batch taken off the front: the loop invariant of a batching loop is kept. */
  lemma ChunksAdvance<T>(s: seq<T>, i: nat, k: nat, done: seq<seq<T>>)
    requires k > 0 && i < |s|
    requires done + Chunks(s[i..], k) == Chunks(s, k)
    ensures (done + [s[i..Min(i + k, |s|)]]) + Chunks(s[Min(i + k, |s|)..], k) == Chunks(s, k)
  {
    ChunksStep(s, i, k);
  }

  /** Once the batching loop has reached the end, the batches taken are all of them. */
  lemma ChunksDone<T>(s: seq<T>, k: nat, done: seq<seq<T>>)
    requires k > 0
    requires done + Chunks(s[|s|..], k) == Chunks(s, k)
    ensures done == Chunks(s, k)
  {
    assert s[|s|..] == [];
  }

  /** Batching visits every element once, in order: together the slices are `s`. */
  lemma {:induction false} ChunksFlatten<T>(s: seq<T>, k: nat)
    requires k > 0
    ensures Flatten(Chunks(s, k)) == s
    decreases |s|
  {
    if |s| > 0 {
      var m := Min(k, |s|);
      ChunksFlatten(s[m..], k);
      FlattenCons(s[..m], Chunks(s[m..], k));
      assert s[..m] + s[m..] == s;
    }
  }

  /** Every slice is non-empty and holds at most `k` elements; all but the last hold exactly `k`. */
  lemma {:induction false} ChunksSizes<T>(s: seq<T>, k: nat)
    requires k > 0
    ensures forall i | 0 <= i < |Chunks(s, k)| :: 1 <= |Chunks(s, k)[i]| <= k
    ensures forall i | 0 <= i < |Chunks(s, k)| - 1 :: |Chunks(s, k)[i]| == k
    decreases |s|
  {
    if |s| > 0 {
      var m := Min(k, |s|);
      ChunksSizes(s[m..], k);
      var cs := Chunks(s, k);
      assert forall i | 1 <= i < |cs| :: cs[i] == Chunks(s[m..], k)[i - 1];
      assert m < k ==> Chunks(s[m..], k) == [];
    }
  }

  /** There are `ceil(|s| / k)` slices. */
  lemma {:induction false} ChunksCount<T>(s: seq<T>, k: nat)
    requires k > 0
    ensures |Chunks(s, k)| == (|s| + k - 1) / k
    decreases |s|
  {
    if |s| > 0 {
      var m := Min(k, |s|);
      ChunksCount(s[m..], k);
      if m < k {
        assert |s[m..]| == 0;
        assert (|s| + k - 1) / k == 1;
      } else {
        var r := |s| - k;
        assert |s| + k - 1 == (r + k - 1) + k;
        DivStep(r + k - 1, k);
      }
    }
  }

  lemma DivStep(a: nat, k: nat)
    requires k > 0
    ensures (a + k) / k == a / k + 1
  {
    DivUnique(a + k, k, a / k + 1, a % k);
  }

  /** Euclidean division is determined by any decomposition with a remainder in range. */
  lemma DivUnique(n: int, m: int, q: int, r: int)
    requires m > 0 && n == q * m + r && 0 <= r < m
    ensures n / m == q && n % m == r
  {
    var q', r' := n / m, n % m;
    assert (q - q') * m == r' - r;
    if q - q' >= 1 {
      MulAtLeast(q - q', m);
    } else if q' - q >= 1 {
      MulAtLeast(q' - q, m);
    }
  }

  lemma MulAtLeast(x: int, m: int)
    requires x >= 1 && m > 0
    ensures x * m >= m
  {
  }

  // ---------------------------------------------------------------- counting

  /** How many elements of `s` satisfy `p`: `s.filter(p).length`. */
  function Count<T>(p: T -> bool, s: seq<T>): (n: nat)
    ensures n <= |s|
    decreases |s|
  {
    if |s| == 0 then 0 else Count(p, s[..|s| - 1]) + (if p(s[|s| - 1]) then 1 else 0)
  }

  lemma {:induction false} CountAppend<T>(p: T -> bool, a: seq<T>, b: seq<T>)
    ensures Count(p, a + b) == Count(p, a) + Count(p, b)
    decreases |b|
  {
    if |b| == 0 {
      assert a + b == a;
    } else {
      CountAppend(p, a, b[..|b| - 1]);
      assert (a + b)[..|a + b| - 1] == a + b[..|b| - 1];
    }
  }

  /** Removing the element at `k`: the multiset loses one copy of it. */
  lemma MultisetRemoveAt<T>(b: seq<T>, k: nat)
    requires k < |b|
    ensures multiset(b) == multiset(b[..k] + b[k + 1..]) + multiset{b[k]}
  {
    assert b == (b[..k] + [b[k]]) + b[k + 1..];
  }

  /** Taking the middle piece out of a concatenation of three. */
  lemma CountMiddle<T>(p: T -> bool, front: seq<T>, x: seq<T>, back: seq<T>)
    ensures Count(p, front + x + back) == Count(p, front + back) + Count(p, x)
  {
    CountAppend(p, front + x, back);
    CountAppend(p, front, x);
    CountAppend(p, front, back);
  }

  /** A sequence around its element at `k`. */
  lemma SplitAt<T>(b: seq<T>, k: nat)
    requires k < |b|
    ensures b == b[..k] + [b[k]] + b[k + 1..]
  {
  }

  /** Removing the element at `k`: the count loses one when it satisfies `p`. */
  lemma CountRemoveAt<T>(p: T -> bool, b: seq<T>, k: nat)
    requires k < |b|
    ensures Count(p, b) == Count(p, b[..k] + b[k + 1..]) + Count(p, [b[k]])
  {
    SplitAt(b, k);
    CountMiddle(p, b[..k], [b[k]], b[k + 1..]);
  }

  /** The count does not depend on the order of the elements. */
  lemma {:induction false} CountPermutation<T>(p: T -> bool, a: seq<T>, b: seq<T>)
    requires multiset(a) == multiset(b)
    ensures Count(p, a) == Count(p, b)
    decreases |a|
  {
    if |a| > 0 {
      var init, x := a[..|a| - 1], a[|a| - 1];
      assert x in multiset(b);
      var k :| 0 <= k < |b| && b[k] == x;
      var b' := b[..k] + b[k + 1..];
      MultisetRemoveAt(b, k);
      assert a == init + [x];
      assert multiset(a) == multiset(init) + multiset{x};
      calc {
        multiset(init);
        multiset(a) - multiset{x};
        multiset(b) - multiset{x};
        multiset(b');
      }
      CountPermutation(p, init, b');
      CountRemoveAt(p, b, k);
      CountAppend(p, init, [x]);
    }
  }

  /** Every element satisfies `p` exactly when the count is the length. */
  lemma {:induction false} CountAll<T>(p: T -> bool, s: seq<T>)
    ensures Count(p, s) == |s| <==> forall i | 0 <= i < |s| :: p(s[i])
    ensures Count(p, s) == 0 <==> forall i | 0 <= i < |s| :: !p(s[i])
    decreases |s|
  {
    if |s| > 0 {
      var init := s[..|s| - 1];
      CountAll(p, init);
      assert forall i | 0 <= i < |init| :: init[i] == s[i];
    }
  }

  // ---------------------------------------------------------------- filtering

  /** The values `f` gives for the elements of `s`, in order, skipping those it gives none for. */
  function FilterMap<A, B>(f: A -> Option<B>, s: seq<A>): seq<B>
    decreases |s|
  {
    if |s| == 0 then []
    else FilterMap(f, s[..|s| - 1]) + (match f(s[|s| - 1]) case Some(y) => [y] case None => [])
  }

  lemma FilterMapStep<A, B>(f: A -> Option<B>, s: seq<A>, i: nat)
    requires i < |s|
    ensures FilterMap(f, s[..i + 1]) == FilterMap(f, s[..i]) + (match f(s[i]) case Some(y) => [y] case None => [])
  {
    assert s[..i + 1][..i] == s[..i];
  }

  /** A loop that pushes `f`'s value for each element onto `acc` keeps `acc == before + FilterMap(f, s[..j])`. */
  lemma FilterMapPush<A, B>(f: A -> Option<B>, s: seq<A>, j: nat, before: seq<B>, acc: seq<B>, r: Option<B>)
    requires j < |s| && acc == before + FilterMap(f, s[..j]) && r == f(s[j])
    ensures (if r.Some? then acc + [r.value] else acc) == before + FilterMap(f, s[..j + 1])
  {
    FilterMapStep(f, s, j);
  }

  lemma {:induction false} FilterMapAppend<A, B>(f: A -> Option<B>, a: seq<A>, b: seq<A>)
    ensures FilterMap(f, a + b) == FilterMap(f, a) + FilterMap(f, b)
    decreases |b|
  {
    if |b| == 0 {
      assert a + b == a;
    } else {
      FilterMapAppend(f, a, b[..|b| - 1]);
      assert (a + b)[..|a + b| - 1] == a + b[..|b| - 1];
    }
  }

  /** An element `f` gives no value for changes nothing, wherever it stands. */
  lemma FilterMapSkip<A, B>(f: A -> Option<B>, a: seq<A>, x: A, b: seq<A>)
    requires f(x).None?
    ensures FilterMap(f, a + [x] + b) == FilterMap(f, a + b)
  {
    FilterMapAppend(f, a + [x], b);
    FilterMapAppend(f, a, [x]);
    FilterMapAppend(f, a, b);
    assert [x][..0] == [];
  }

  /** Every value kept is the value of some element, and every element's value is kept. */
  lemma {:induction false} FilterMapMembers<A, B>(f: A -> Option<B>, s: seq<A>, y: B)
    ensures y in FilterMap(f, s) <==> exists i | 0 <= i < |s| :: f(s[i]) == Some(y)
    decreases |s|
  {
    if |s| > 0 {
      var init := s[..|s| - 1];
      FilterMapMembers(f, init, y);
      if y in FilterMap(f, init) {
        var i :| 0 <= i < |init| && f(init[i]) == Some(y);
        assert s[i] == init[i];
      }
      if exists i | 0 <= i < |s| :: f(s[i]) == Some(y) {
        var i :| 0 <= i < |s| && f(s[i]) == Some(y);
        if i < |init| {
          assert init[i] == s[i];
        }
      }
    }
  }

  /** Some kept value satisfies `p` exactly when `f` gives such a value for some element. */
  lemma FilterMapExists<A, B>(f: A -> Option<B>, p: B -> bool, s: seq<A>)
    ensures (exists j | 0 <= j < |FilterMap(f, s)| :: p(FilterMap(f, s)[j])) <==>
            (exists i | 0 <= i < |s| :: f(s[i]).Some? && p(f(s[i]).value))
  {
    var r := FilterMap(f, s);
    if exists j | 0 <= j < |r| :: p(r[j]) {
      var j :| 0 <= j < |r| && p(r[j]);
      assert r[j] in r;
      FilterMapMembers(f, s, r[j]);
    }
    if exists i | 0 <= i < |s| :: f(s[i]).Some? && p(f(s[i]).value) {
      var i :| 0 <= i < |s| && f(s[i]).Some? && p(f(s[i]).value);
      FilterMapMembers(f, s, f(s[i]).value);
    }
  }

  /** Whether `f` gives a value for an element. */
  function Keeps<A, B>(f: A -> Option<B>): A -> bool {
    x => f(x).Some?
  }

  /** As many values are kept as there are elements `f` gives one for. */
  lemma {:induction false} FilterMapLength<A, B>(f: A -> Option<B>, s: seq<A>)
    ensures |FilterMap(f, s)| == Count(Keeps(f), s)
    decreases |s|
  {
    if |s| > 0 {
      FilterMapLength(f, s[..|s| - 1]);
    }
  }

  // ---------------------------------------------------------------- sums

  /** `f(s[0]) + ... + f(s[|s| - 1])`. */
  function SumOf<T>(f: T -> nat, s: seq<T>): nat
    decreases |s|
  {
    if |s| == 0 then 0 else SumOf(f, s[..|s| - 1]) + f(s[|s| - 1])
  }

  lemma {:induction false} SumAppend<T>(f: T -> nat, a: seq<T>, b: seq<T>)
    ensures SumOf(f, a + b) == SumOf(f, a) + SumOf(f, b)
    decreases |b|
  {
    if |b| == 0 {
      assert a + b == a;
    } else {
      SumAppend(f, a, b[..|b| - 1]);
      assert (a + b)[..|a + b| - 1] == a + b[..|b| - 1];
    }
  }

  lemma SumMiddle<T>(f: T -> nat, front: seq<T>, x: T, back: seq<T>)
    ensures SumOf(f, front + [x] + back) == SumOf(f, front + back) + f(x)
  {
    SumAppend(f, front + [x], back);
    SumAppend(f, front, [x]);
    SumAppend(f, front, back);
    assert SumOf(f, [x]) == f(x) by {
      assert [x][..0] == [];
    }
  }

  lemma SumRemoveAt<T>(f: T -> nat, b: seq<T>, k: nat)
    requires k < |b|
    ensures SumOf(f, b) == SumOf(f, b[..k] + b[k + 1..]) + f(b[k])
  {
    SplitAt(b, k);
    SumMiddle(f, b[..k], b[k], b[k + 1..]);
  }

  lemma {:induction false} SumPermutation<T>(f: T -> nat, a: seq<T>, b: seq<T>)
    requires multiset(a) == multiset(b)
    ensures SumOf(f, a) == SumOf(f, b)
    decreases |a|
  {
    if |a| > 0 {
      var init, x := a[..|a| - 1], a[|a| - 1];
      assert x in multiset(b);
      var k :| 0 <= k < |b| && b[k] == x;
      var b' := b[..k] + b[k + 1..];
      MultisetRemoveAt(b, k);
      assert a == init + [x];
      assert multiset(a) == multiset(init) + multiset{x};
      calc {
        multiset(init);
        multiset(a) - multiset{x};
        multiset(b) - multiset{x};
        multiset(b');
      }
      SumPermutation(f, init, b');
      SumRemoveAt(f, b, k);
    }
  }

  // ---------------------------------------------------------------- sorting by a key

  /** `s` in ascending order of `f`. */
  predicate Ascending<T>(f: T -> int, s: seq<T>) {
    forall i, j | 0 <= i < j < |s| :: f(s[i]) <= f(s[j])
  }

  /** `x` placed before the first element of larger key. */
  function InsertBy<T>(f: T -> int, x: T, s: seq<T>): seq<T>
    decreases |s|
  {
    if |s| == 0 then [x]
    else if f(x) <= f(s[0]) then [x] + s
    else [s[0]] + InsertBy(f, x, s[1..])
  }

  /** A stable insertion sort by `f`. */
  function SortBy<T>(f: T -> int, s: seq<T>): seq<T>
    decreases |s|
  {
    if |s| == 0 then [] else InsertBy(f, s[|s| - 1], SortBy(f, s[..|s| - 1]))
  }

  lemma {:induction false} InsertByMultiset<T>(f: T -> int, x: T, s: seq<T>)
    ensures multiset(InsertBy(f, x, s)) == multiset(s) + multiset{x}
    decreases |s|
  {
    if |s| > 0 && f(x) > f(s[0]) {
      InsertByMultiset(f, x, s[1..]);
      assert s == [s[0]] + s[1..];
    }
  }

  lemma {:induction false} InsertByAscending<T>(f: T -> int, x: T, s: seq<T>)
    requires Ascending(f, s)
    ensures Ascending(f, InsertBy(f, x, s))
    decreases |s|
  {
    if |s| > 0 && f(x) > f(s[0]) {
      var rest := s[1..];
      InsertByAscending(f, x, rest);
      InsertByMultiset(f, x, rest);
      var t := InsertBy(f, x, rest);
      forall k | 0 <= k < |t| ensures f(s[0]) <= f(t[k]) {
        assert t[k] in multiset(rest) + multiset{x};
        if t[k] != x {
          assert t[k] in rest;
        }
      }
      var u := [s[0]] + t;
      forall i, j | 0 <= i < j < |u| ensures f(u[i]) <= f(u[j]) {
        assert u[j] == t[j - 1];
        if i > 0 {
          assert u[i] == t[i - 1];
        }
      }
    }
  }

  /** Sorting keeps the elements and puts them in ascending order of `f`. */
  lemma {:induction false} SortByFacts<T>(f: T -> int, s: seq<T>)
    ensures Ascending(f, SortBy(f, s))
    ensures multiset(SortBy(f, s)) == multiset(s)
    decreases |s|
  {
    if |s| > 0 {
      var init := s[..|s| - 1];
      SortByFacts(f, init);
      InsertByAscending(f, s[|s| - 1], SortBy(f, init));
      InsertByMultiset(f, s[|s| - 1], SortBy(f, init));
      assert s == init + [s[|s| - 1]];
    }
  }
}
