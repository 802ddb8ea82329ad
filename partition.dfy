/** How the crackers split one length stratum among workers: the prefix-length
    rules, Python's list chunking, the C++ index ranges and prefix-vector slices,
    and the GPU index windows. */
module Partition {
  import opened Wrappers
  import opened Arith
  import opened Keyspace
  import opened Search

  function Min(a: int, b: int): int
  {
    if a <= b then a else b
  }

  /** Prefix length of password_cracker_CPU.py and of the three C++ crackers:
      two symbols for strata longer than two, otherwise one. */
  function PrefixLen(length: nat): (k: nat)
    ensures 1 <= k <= 2
    ensures length >= 1 ==> k <= length
    ensures length > 2 ==> length - k >= 1
  {
    if length > 2 then 2 else 1
  }

  /** Prefix length of password_cracker.py: two symbols only for strata longer
      than two over more than six symbols. */
  function FlagPrefixLen(length: nat, m: nat): (k: nat)
    ensures 1 <= k <= PrefixLen(length)
    ensures k == 2 <==> length > 2 && m > 6
  {
    if length > 2 && m > 6 then 2 else 1
  }

  /** Python's `[xs[i:i + c] for i in range(0, len(xs), c)]` for a step c > 0:
      consecutive slices of c elements, the last one possibly shorter. */
  function Chunks<T>(xs: seq<T>, c: nat): (parts: seq<seq<T>>)
    requires c > 0
    ensures Flatten(parts) == xs
    ensures forall i :: 0 <= i < |parts| ==> 0 < |parts[i]| <= c
    ensures forall i :: 0 <= i < |parts| - 1 ==> |parts[i]| == c
    decreases |xs|
  {
    if xs == [] then []
    else if |xs| <= c then
      assert Flatten([xs]) == xs + Flatten([xs][1..]);
      [xs]
    else
      var rest := Chunks(xs[c..], c);
      assert ([xs[..c]] + rest)[1..] == rest;
      assert xs == xs[..c] + xs[c..];
      [xs[..c]] + rest
  }

  /** There are ceil(n / c) chunks. */
  lemma {:induction false} ChunksCount<T>(xs: seq<T>, c: nat)
    requires c > 0
    ensures |Chunks(xs, c)| == CeilDiv(|xs|, c)
    decreases |xs|
  {
    if xs == [] {
      CeilDivZero(c);
    } else if |xs| <= c {
      CeilDivOne(|xs|, c);
    } else {
      ChunksCount(xs[c..], c);
      CeilDivStep(|xs|, c);
    }
  }

  /** With the chunk size ceil(n / W) of every Python cracker, there are at most W
      chunks, so at most W workers get work. */
  lemma ChunksFitWorkers<T>(xs: seq<T>, w: nat)
    requires w > 0 && |xs| > 0
    ensures CeilDiv(|xs|, w) > 0
    ensures |Chunks(xs, CeilDiv(|xs|, w))| <= w
  {
    var c := CeilDiv(|xs|, w);
    ChunksCount(xs, c);
    assert c * w >= |xs|;
    CeilDivAtMost(|xs|, c, w);
  }

  /** The chunking shared by every `chunk_prefixes`: chunks of ceil(n / W) when
      there is something to chunk; with nothing, the step of `range` is 0 and
      Python raises ValueError. */
  function ChunkList<T>(xs: seq<T>, workers: nat): (r: Result<seq<seq<T>>>)
    requires workers > 0
    ensures r.Failure? <==> |xs| == 0
    ensures r.Success? ==> Flatten(r.value) == xs
    ensures r.Success? ==> 0 < |r.value| <= workers
  {
    if |xs| == 0 then
      CeilDivZero(workers);
      Failure("range() arg 3 must not be zero")
    else
      ChunksFitWorkers(xs, workers);
      Success(Chunks(xs, CeilDiv(|xs|, workers)))
  }

  /** `chunk_prefixes` of password_cracker_CPU.py: the m^k `itertools.product`
      prefixes cut into chunks; ValueError exactly when there are no symbols. */
  function ChunkProductPrefixes(charset: string, workers: nat, k: nat): (r: Result<seq<seq<string>>>)
    requires workers > 0 && k > 0
    ensures r.Failure? <==> |charset| == 0
    ensures r.Success? ==> Flatten(r.value) == Product(charset, k)
    ensures r.Success? ==> 0 < |r.value| <= workers
    ensures r.Success? ==> forall i :: 0 <= i < |r.value| ==> Uniform(r.value[i], k)
  {
    var prefixes := Product(charset, k);
    ProductEmpty(charset, k);
    ProductUniform(charset, k);
    var r := ChunkList(prefixes, workers);
    if r.Success? then
      ChunksUniform(prefixes, CeilDiv(|prefixes|, workers), k);
      r
    else r
  }

  /** The product is empty exactly when there are no symbols (for k > 0). */
  lemma ProductEmpty(cs: string, k: nat)
    requires k > 0
    ensures |Product(cs, k)| == 0 <==> |cs| == 0
  {
    if |cs| == 0 {
      PowZeroBase(k);
    } else {
      PowPositive(|cs|, k);
    }
  }

  /** Chunks of a list of length-k words hold length-k words. */
  lemma {:induction false} ChunksUniform(xs: seq<string>, c: nat, k: nat)
    requires c > 0 && Uniform(xs, k)
    ensures forall i :: 0 <= i < |Chunks(xs, c)| ==> Uniform(Chunks(xs, c)[i], k)
    decreases |xs|
  {
    if |xs| > c {
      ChunksUniform(xs[c..], c, k);
    }
  }

  /** Python's `list(charset)`: each symbol as a one-symbol string. */
  function ListOf(s: string): (xs: seq<string>)
    ensures |xs| == |s|
    ensures Uniform(xs, 1)
  {
    seq(|s|, i requires 0 <= i < |s| => [s[i]])
  }

  /** `list(charset)` is the one-fold `itertools.product`, so the two branches of
      `chunk_prefixes` in password_cracker.py agree at prefix length 1. */
  lemma ListOfIsProduct(s: string)
    ensures ListOf(s) == Product(s, 1)
  {
    var p := Product(s, 1);
    assert |p| == |s|;
    forall i | 0 <= i < |s|
      ensures p[i] == [s[i]]
    {
      ProductAt(s, 1, i);
      DivModUnique(i, |s|, 0, i);
    }
  }

  /** Chunks of a string, each turned into its list of symbols, list the symbols
      of the whole string (the GUI workers take chunks of the charset itself). */
  lemma {:induction false} ListOfFlatten(parts: seq<string>)
    ensures Flatten(seq(|parts|, i requires 0 <= i < |parts| => ListOf(parts[i]))) == ListOf(Flatten(parts))
    decreases |parts|
  {
    var lists := seq(|parts|, i requires 0 <= i < |parts| => ListOf(parts[i]));
    if parts != [] {
      var tail := parts[1..];
      ListOfFlatten(tail);
      assert lists[1..] == seq(|tail|, i requires 0 <= i < |tail| => ListOf(tail[i]));
      assert ListOf(parts[0] + Flatten(tail)) == ListOf(parts[0]) + ListOf(Flatten(tail));
    }
  }

  /** `chunk_prefixes` of password_cracker.py: `list(charset)` for prefix length 1,
      the product otherwise; the same chunking and the same ValueError. */
  function ChunkFlagPrefixes(charset: string, workers: nat, k: nat): (r: Result<seq<seq<string>>>)
    requires workers > 0 && k > 0
    ensures r.Failure? <==> |charset| == 0
    ensures r.Success? ==> Flatten(r.value) == Product(charset, k)
    ensures r.Success? ==> 0 < |r.value| <= workers
    ensures r.Success? ==> forall i :: 0 <= i < |r.value| ==> Uniform(r.value[i], k)
  {
    var prefixes := if k == 1 then ListOf(charset) else Product(charset, k);
    ListOfIsProduct(charset);
    ProductEmpty(charset, k);
    ProductUniform(charset, k);
    var r := ChunkList(prefixes, workers);
    if r.Success? then
      ChunksUniform(prefixes, CeilDiv(|prefixes|, workers), k);
      r
    else r
  }

  /** The elements at indices [s, e) when s < e, nothing otherwise: what a C++
      loop `for (i = s; i < e; ++i)` visits, and a vector slice whose start is
      clamped to its end. */
  function Slice<T>(xs: seq<T>, s: nat, e: nat): (r: seq<T>)
    requires e <= |xs|
    ensures |r| == if s < e then e - s else 0
  {
    if s < e then xs[s..e] else []
  }

  /** The pieces handed to the first k of the threads: thread t gets
      [t * c, min(t * c + c, n)). */
  function Parts<T>(xs: seq<T>, c: nat, k: nat): (ps: seq<seq<T>>)
    ensures |ps| == k
  {
    if k == 0 then []
    else
      var s := (k - 1) * c;
      Parts(xs, c, k - 1) + [Slice(xs, s, Min(s + c, |xs|))]
  }

  /** Piece t of the first k is thread t's slice [t * c, min(t * c + c, n)). */
  lemma {:induction false} PartsAt<T>(xs: seq<T>, c: nat, k: nat, t: nat)
    requires t < k
    ensures Parts(xs, c, k)[t] == Slice(xs, t * c, Min(t * c + c, |xs|))
    decreases k
  {
    if t < k - 1 {
      PartsAt(xs, c, k - 1, t);
    }
  }

  /** The first k pieces concatenate to the first min(k * c, n) elements. */
  lemma {:induction false} PartsFlatten<T>(xs: seq<T>, c: nat, k: nat)
    ensures Flatten(Parts(xs, c, k)) == xs[..Min(k * c, |xs|)]
  {
    if k > 0 {
      var s := (k - 1) * c;
      var front := Parts(xs, c, k - 1);
      var piece := Slice(xs, s, Min(s + c, |xs|));
      PartsFlatten(xs, c, k - 1);
      FlattenConcat(front, [piece]);
      assert Flatten([piece]) == piece + Flatten([piece][1..]);
      MulSucc(k - 1, c);
      if s < |xs| {
        assert xs[..Min(k * c, |xs|)] == xs[..s] + xs[s..Min(s + c, |xs|)];
      }
    }
  }

  /** With c = ceil(n / T), the T pieces concatenate to the whole sequence: they
      are in order, leave no gaps and do not overlap; pieces past the end are empty. */
  lemma PartsCover<T>(xs: seq<T>, threads: nat)
    requires threads > 0
    ensures Flatten(Parts(xs, CeilDiv(|xs|, threads), threads)) == xs
  {
    var c := CeilDiv(|xs|, threads);
    PartsFlatten(xs, c, threads);
    assert c * threads >= |xs|;
    assert xs[..|xs|] == xs;
  }

  /** The integers s, s+1, ..., e-1: every integer of [s, e) once, in
      increasing order. */
  function Range(s: nat, e: nat): (r: seq<nat>)
    ensures |r| == if s < e then e - s else 0
    ensures forall x :: x in r <==> s <= x < e
    ensures forall i, j :: 0 <= i < j < |r| ==> r[i] < r[j]
  {
    if s < e then
      var r := seq(e - s, i requires 0 <= i < e - s => s + i);
      RangeHits(s, e, r);
      r
    else []
  }

  /** Every integer of [s, e) sits in the range at its offset from s. */
  lemma RangeHits(s: nat, e: nat, r: seq<nat>)
    requires s < e && |r| == e - s && forall i :: 0 <= i < |r| ==> r[i] == s + i
    ensures forall x :: s <= x < e ==> x in r
  {
    forall x | s <= x < e
      ensures x in r
    {
      assert r[x - s] == x;
    }
  }

  /** The C++ index ranges [t * c, min(t * c + c, P)) of c++_cracker_CPU.cpp and
      c++_cracker_CPU.c++, visited in thread order, list 0, 1, ..., P-1 exactly once each. */
  lemma RangesTile(p: nat, threads: nat)
    requires threads > 0
    ensures Flatten(Parts(Range(0, p), CeilDiv(p, threads), threads)) == Range(0, p)
  {
    PartsCover(Range(0, p), threads);
  }

  /** Slicing as password_cracker_CPU.c++ writes it: `vector(begin + s, begin + e)`
      is undefined (and in practice throws or crashes) when s > e. */
  function SliceAsWritten<T>(xs: seq<T>, s: nat, e: nat): (r: Result<seq<T>>)
    requires e <= |xs|
    ensures r.Success? <==> s <= e
    ensures r.Success? ==> r.value == Slice(xs, s, e)
  {
    if s <= e then Success(xs[s..e]) else Failure("invalid iterator range")
  }

  /** The unguarded start t * c passes the end min(t * c + c, n) exactly when it
      passes n. */
  lemma SliceAsWrittenFails<T>(xs: seq<T>, threads: nat, t: nat)
    requires threads > 0
    ensures var c := CeilDiv(|xs|, threads);
      SliceAsWritten(xs, t * c, Min(t * c + c, |xs|)).Failure? <==> t * c > |xs|
  {
  }

  /** Ten digit prefixes (a digits-only target of length at most two) on eight
      threads: thread 6 starts at 12, past the end 10. */
  lemma SliceAsWrittenExample()
    ensures CeilDiv(10, 8) == 2
    ensures SliceAsWritten(Range(0, 10), 6 * 2, Min(6 * 2 + 2, 10)).Failure?
  {
  }

  /** The GPU windows of password_cracker_GPU.py and gpu_cracker.py from start s:
      [s, s + min(B, total - s)) for s = 0, B, 2B, ... below total. */
  function Windows(total: nat, b: nat, s: nat): (ws: seq<seq<nat>>)
    requires b > 0
    ensures forall i :: 0 <= i < |ws| ==> 0 < |ws[i]| <= b
    decreases total - s
  {
    if s >= total then []
    else [Range(s, s + Min(b, total - s))] + Windows(total, b, s + b)
  }

  /** The windows tile [s, total): in order, with no gap and no overlap. */
  lemma {:induction false} WindowsTile(total: nat, b: nat, s: nat)
    requires b > 0
    ensures Flatten(Windows(total, b, s)) == Range(s, total)
    decreases total - s
  {
    if s < total {
      var e := s + Min(b, total - s);
      WindowsTile(total, b, s + b);
      var ws := Windows(total, b, s);
      assert ws[1..] == Windows(total, b, s + b);
      assert Range(s, total) == Range(s, e) + Range(s + b, total);
    }
  }
}
