/** The keyspace of one length stratum: strings of a fixed length over an ordered
    charset, numbered by mixed-radix arithmetic.

    Two decodings occur in the crackers. Big-endian (`int_to_prefix` in the C++
    crackers, `int_to_str_batch` in the GPU crackers) fills the LAST position with
    `index % m` and works towards the first. Little-endian (the C++ suffix loops and
    `generate_prefixes`) appends `index % m` first. `itertools.product(charset,
    repeat=n)`, which the Python workers iterate, is modelled independently by
    `Product` and shown to be big-endian decoding of 0, 1, 2, ... */
module Keyspace {
  import opened Arith

  /** Every character of s is a symbol of the charset cs. */
  predicate Over(cs: string, s: string)
  {
    forall k :: 0 <= k < |s| ==> s[k] in cs
  }

  /** No symbol occurs twice in cs. */
  predicate Distinct(cs: string)
  {
    forall i, j :: 0 <= i < j < |cs| ==> cs[i] != cs[j]
  }

  /** Position of the first occurrence of c in cs. */
  function IndexOf(cs: string, c: char): (k: nat)
    requires c in cs
    ensures k < |cs| && cs[k] == c
    ensures forall j :: 0 <= j < k ==> cs[j] != c
  {
    if cs[0] == c then 0 else 1 + IndexOf(cs[1..], c)
  }

  /** The loop `for pos in reversed(range(n)): out[pos] = cs[i % m]; i //= m`:
      the last character is the least significant digit. */
  function DecodeBig(cs: string, i: nat, n: nat): (s: string)
    requires n > 0 ==> |cs| > 0
    ensures |s| == n && Over(cs, s)
    decreases n
  {
    if n == 0 then [] else DecodeBig(cs, i / |cs|, n - 1) + [cs[i % |cs|]]
  }

  /** The loop `for j < n: out += cs[i % m]; i /= m`: the first character is the
      least significant digit. */
  function DecodeLittle(cs: string, i: nat, n: nat): (s: string)
    requires n > 0 ==> |cs| > 0
    ensures |s| == n && Over(cs, s)
    decreases n
  {
    if n == 0 then [] else [cs[i % |cs|]] + DecodeLittle(cs, i / |cs|, n - 1)
  }

  /** The index that big-endian decoding maps to s (the inverse of DecodeBig). */
  function Rank(cs: string, s: string): (r: nat)
    requires Over(cs, s)
    ensures r < Pow(|cs|, |s|)
  {
    if s == [] then 0
    else
      var p := s[..|s| - 1];
      assert Over(cs, p);
      RankStep(Rank(cs, p), IndexOf(cs, s[|s| - 1]), |cs|, Pow(|cs|, |p|));
      Rank(cs, p) * |cs| + IndexOf(cs, s[|s| - 1])
  }

  function Reverse(s: string): (r: string)
    ensures |r| == |s|
    ensures forall k :: 0 <= k < |s| ==> r[k] == s[|s| - 1 - k]
  {
    if s == [] then [] else Reverse(s[1..]) + [s[0]]
  }

  /** The index that little-endian decoding maps to s. */
  function RankLittle(cs: string, s: string): (r: nat)
    requires Over(cs, s)
    ensures r < Pow(|cs|, |s|)
  {
    assert Over(cs, Reverse(s));
    Rank(cs, Reverse(s))
  }

  lemma RankStep(r: nat, d: nat, m: nat, p: nat)
    requires r < p && d < m
    ensures r * m + d < m * p
  {
    assert r * m <= (p - 1) * m;
  }

  /** Appending a symbol shifts the rank by one digit. */
  lemma RankSnoc(cs: string, p: string, c: char)
    requires Over(cs, p) && c in cs
    ensures Over(cs, p + [c])
    ensures Rank(cs, p + [c]) == Rank(cs, p) * |cs| + IndexOf(cs, c)
  {
    assert (p + [c])[..|p|] == p;
  }

  lemma IndexOfDistinct(cs: string, k: nat)
    requires Distinct(cs) && k < |cs|
    ensures IndexOf(cs, cs[k]) == k
  {
  }

  /** Decoding the rank of s gives back s: every string over cs is reached. */
  lemma {:induction false} DecodeRank(cs: string, s: string)
    requires Over(cs, s)
    ensures DecodeBig(cs, Rank(cs, s), |s|) == s
  {
    if s != [] {
      var m, p := |cs|, s[..|s| - 1];
      assert Over(cs, p);
      var d := IndexOf(cs, s[|s| - 1]);
      DivModUnique(Rank(cs, p) * m + d, m, Rank(cs, p), d);
      DecodeRank(cs, p);
      assert s == p + [s[|s| - 1]];
    }
  }

  /** Over a charset without repeated symbols, the rank of the decoding of an
      in-range index is that index. */
  lemma {:induction false} RankDecode(cs: string, i: nat, n: nat)
    requires n > 0 ==> |cs| > 0
    requires Distinct(cs) && i < Pow(|cs|, n)
    ensures Rank(cs, DecodeBig(cs, i, n)) == i
    decreases n
  {
    if n > 0 {
      var m := |cs|;
      var q, d := i / m, i % m;
      var p := DecodeBig(cs, q, n - 1);
      DivPow(i, m, n);
      calc {
        Rank(cs, DecodeBig(cs, i, n));
        Rank(cs, p + [cs[d]]);
        { RankSnoc(cs, p, cs[d]); }
        Rank(cs, p) * m + IndexOf(cs, cs[d]);
        { RankDecode(cs, q, n - 1); IndexOfDistinct(cs, d); }
        q * m + d;
        { DivModSplit(i, m); }
        i;
      }
    }
  }

  /** Big-endian decoding is a bijection from [0, m^n) onto the strings of length
      n over a charset without repeated symbols. */
  lemma DecodeBigBijective(cs: string, n: nat)
    requires Distinct(cs) && |cs| > 0
    ensures forall i, j :: 0 <= i < Pow(|cs|, n) && 0 <= j < Pow(|cs|, n) && DecodeBig(cs, i, n) == DecodeBig(cs, j, n) ==> i == j
    ensures forall s :: |s| == n && Over(cs, s) ==> Rank(cs, s) < Pow(|cs|, n) && DecodeBig(cs, Rank(cs, s), n) == s
  {
    forall i, j | 0 <= i < Pow(|cs|, n) && 0 <= j < Pow(|cs|, n) && DecodeBig(cs, i, n) == DecodeBig(cs, j, n)
      ensures i == j
    {
      RankDecode(cs, i, n);
      RankDecode(cs, j, n);
    }
    forall s | |s| == n && Over(cs, s)
      ensures DecodeBig(cs, Rank(cs, s), n) == s
    {
      DecodeRank(cs, s);
    }
  }

  /** Little-endian decoding is big-endian decoding read backwards. */
  lemma {:induction false} LittleIsReversedBig(cs: string, i: nat, n: nat)
    requires n > 0 ==> |cs| > 0
    ensures DecodeLittle(cs, i, n) == Reverse(DecodeBig(cs, i, n))
    decreases n
  {
    if n > 0 {
      LittleIsReversedBig(cs, i / |cs|, n - 1);
    }
  }

  lemma ReverseReverse(s: string)
    ensures Reverse(Reverse(s)) == s
  {
  }

  /** Little-endian decoding is a bijection from [0, m^n) onto the strings of
      length n over a charset without repeated symbols. */
  lemma DecodeLittleBijective(cs: string, n: nat)
    requires Distinct(cs) && |cs| > 0
    ensures forall i :: 0 <= i < Pow(|cs|, n) ==> RankLittle(cs, DecodeLittle(cs, i, n)) == i
    ensures forall s :: |s| == n && Over(cs, s) ==> DecodeLittle(cs, RankLittle(cs, s), n) == s
  {
    forall i | 0 <= i < Pow(|cs|, n)
      ensures RankLittle(cs, DecodeLittle(cs, i, n)) == i
    {
      LittleIsReversedBig(cs, i, n);
      ReverseReverse(DecodeBig(cs, i, n));
      RankDecode(cs, i, n);
    }
    forall s | |s| == n && Over(cs, s)
      ensures DecodeLittle(cs, RankLittle(cs, s), n) == s
    {
      var r := Reverse(s);
      assert Over(cs, r);
      LittleIsReversedBig(cs, Rank(cs, r), n);
      DecodeRank(cs, r);
      ReverseReverse(s);
    }
  }

  /** Splitting a big-endian decoding: the first a symbols are the decoding of
      i / m^b, the last b symbols that of i. */
  lemma {:induction false} SplitBig(cs: string, i: nat, a: nat, b: nat)
    requires |cs| > 0
    ensures DecodeBig(cs, i, a + b) == DecodeBig(cs, i / Pow(|cs|, b), a) + DecodeBig(cs, i, b)
    decreases b
  {
    var m := |cs|;
    if b > 0 {
      SplitBig(cs, i / m, a, b - 1);
      PowPositive(m, b - 1);
      DivDiv(i, m, Pow(m, b - 1));
      assert DecodeBig(cs, i, a + b) == DecodeBig(cs, i / m, a + b - 1) + [cs[i % m]];
    }
  }

  /** Big-endian decoding grows at the front: one more symbol is digit b of i. */
  lemma DecodeBigFront(cs: string, i: nat, b: nat)
    requires |cs| > 0
    ensures DecodeBig(cs, i, b + 1) == [cs[(i / Pow(|cs|, b)) % |cs|]] + DecodeBig(cs, i, b)
  {
    var x := i / Pow(|cs|, b);
    SplitBig(cs, i, 1, b);
    assert DecodeBig(cs, x, 1) == DecodeBig(cs, x / |cs|, 0) + [cs[x % |cs|]];
  }

  /** Little-endian decoding grows at the back: one more symbol is digit j of i. */
  lemma {:induction false} DecodeLittleSnoc(cs: string, i: nat, j: nat)
    requires |cs| > 0
    ensures DecodeLittle(cs, i, j + 1) == DecodeLittle(cs, i, j) + [cs[(i / Pow(|cs|, j)) % |cs|]]
    decreases j
  {
    var m := |cs|;
    if j > 0 {
      DecodeLittleSnoc(cs, i / m, j - 1);
      PowPositive(m, j - 1);
      DivDiv(i, m, Pow(m, j - 1));
    }
  }

  /** Decoding only sees the index modulo m^n: an out-of-range index wraps silently. */
  lemma {:induction false} WrapBig(cs: string, i: nat, n: nat)
    requires |cs| > 0
    ensures DecodeBig(cs, i % Pow(|cs|, n), n) == DecodeBig(cs, i, n)
    decreases n
  {
    var m := |cs|;
    if n > 0 {
      PowPositive(m, n - 1);
      ModMul(i, m, Pow(m, n - 1));
      WrapBig(cs, i / m, n - 1);
    }
  }

  /** Position p of a big-endian decoding holds digit n-1-p of i. */
  lemma DigitBig(cs: string, i: nat, n: nat, p: nat)
    requires |cs| > 0 && p < n
    ensures DecodeBig(cs, i, n)[p] == cs[(i / Pow(|cs|, n - 1 - p)) % |cs|]
  {
    SplitBig(cs, i, p + 1, n - 1 - p);
  }

  /** One step of `itertools.product`: each earlier tuple followed by each symbol. */
  function Extend(xs: seq<string>, cs: string): (ys: seq<string>)
    ensures |ys| == |xs| * |cs|
  {
    if xs == [] then []
    else seq(|cs|, k requires 0 <= k < |cs| => xs[0] + [cs[k]]) + Extend(xs[1..], cs)
  }

  /** `itertools.product(cs, repeat=n)`, joined into strings. */
  function Product(cs: string, n: nat): (ps: seq<string>)
    ensures |ps| == Pow(|cs|, n)
  {
    if n == 0 then [[]] else Extend(Product(cs, n - 1), cs)
  }

  lemma {:induction false} ExtendAt(xs: seq<string>, cs: string, j: nat)
    requires |cs| > 0 && j < |xs| * |cs|
    ensures j / |cs| < |xs|
    ensures Extend(xs, cs)[j] == xs[j / |cs|] + [cs[j % |cs|]]
    decreases |xs|
  {
    var m := |cs|;
    DivBound(j, m, |xs|);
    var head := seq(m, k requires 0 <= k < m => xs[0] + [cs[k]]);
    var tail := Extend(xs[1..], cs);
    assert Extend(xs, cs) == head + tail;
    if j < m {
      DivModUnique(j, m, 0, j);
    } else {
      ShiftBlock(j, m, |xs|);
      ExtendAt(xs[1..], cs, j - m);
      calc {
        Extend(xs, cs)[j];
        tail[j - m];
        xs[1..][(j - m) / m] + [cs[(j - m) % m]];
        xs[j / m] + [cs[j % m]];
      }
    }
  }

  /** The n-fold product lists the big-endian decodings of 0, 1, ..., m^n - 1 in order. */
  lemma {:induction false} ProductIsBigEndian(cs: string, n: nat)
    ensures forall i :: 0 <= i < |Product(cs, n)| ==> (n > 0 ==> |cs| > 0) && Product(cs, n)[i] == DecodeBig(cs, i, n)
  {
    if n > 0 {
      var m := |cs|;
      var prev := Product(cs, n - 1);
      ProductIsBigEndian(cs, n - 1);
      assert Product(cs, n) == Extend(prev, cs);
      forall i | 0 <= i < |Product(cs, n)|
        ensures m > 0 && Product(cs, n)[i] == DecodeBig(cs, i, n)
      {
        PositiveFactors(|prev|, m);
        ExtendAt(prev, cs, i);
        calc {
          Product(cs, n)[i];
          prev[i / m] + [cs[i % m]];
          DecodeBig(cs, i / m, n - 1) + [cs[i % m]];
          DecodeBig(cs, i, n);
        }
      }
    }
  }

  /** Every string in the keyspace of length n is a word over cs of length n. */
  lemma ProductMember(cs: string, n: nat, x: string)
    requires x in Product(cs, n)
    ensures |x| == n && Over(cs, x)
  {
    var p := Product(cs, n);
    var j :| 0 <= j < |p| && p[j] == x;
    ProductAt(cs, n, j);
  }

  /** Entry i of the n-fold product, one index at a time. */
  lemma ProductAt(cs: string, n: nat, i: nat)
    requires i < |Product(cs, n)|
    ensures n > 0 ==> |cs| > 0
    ensures Product(cs, n)[i] == DecodeBig(cs, i, n)
  {
    ProductIsBigEndian(cs, n);
  }

  /** The index order of the C++ suffix loops: entry i is the little-endian decoding
      of i (empty when there are no symbols and n > 0, as `pow(0, n)` is then 0). */
  function LittleProduct(cs: string, n: nat): (ps: seq<string>)
    ensures |ps| == Pow(|cs|, n)
    ensures forall i :: 0 <= i < |ps| ==> (n > 0 ==> |cs| > 0) && ps[i] == DecodeLittle(cs, i, n)
  {
    if n > 0 && |cs| == 0 then
      PowZeroBase(n);
      []
    else
      seq(Pow(|cs|, n), i requires 0 <= i < Pow(|cs|, n) => DecodeLittle(cs, i, n))
  }
}
