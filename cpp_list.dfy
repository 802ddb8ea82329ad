/** The threaded C++ cracker password_cracker_CPU.c++. A stratum's prefixes
    are built as a list by `generate_prefixes`, entry i being the
    little-endian decoding of i; thread t receives a copy of the slice
    [t * c, min(t * c + c, P)) of that list with c = ceil(P / T), and each
    prefix is followed by the suffixes decoded little-endian from 0 up. The
    threads share `found` and `total_attempts`; the model runs them one after
    the other in thread order. */
module CppList {
  import opened Wrappers
  import opened Arith
  import opened Keyspace
  import opened Search
  import opened Partition
  import opened CppAlphabet
  import CppRange

  /** `generate_prefixes`: for every i below m^k, the little-endian decoding
      of i, built by the same digit loop as the guesses. */
  method GeneratePrefixes(charset: string, prefixLen: nat) returns (prefixes: seq<string>)
    ensures prefixes == LittleProduct(charset, prefixLen)
  {
    ghost var ps := LittleProduct(charset, prefixLen);
    var totalPrefixes := Pow(|charset|, prefixLen);
    prefixes := [];
    var i := 0;
    while i < totalPrefixes
      invariant i <= totalPrefixes && prefixes == ps[..i]
    {
      var prefix := CppRange.AppendSuffix("", i, prefixLen, charset);
      assert prefix == ps[i] by {
        assert [] + DecodeLittle(charset, i, prefixLen) == DecodeLittle(charset, i, prefixLen);
      }
      assert ps[..i + 1] == ps[..i] + [ps[i]];
      prefixes := prefixes + [prefix];
      i := i + 1;
    }
    assert ps[..i] == ps;
  }

  /** `worker`: each prefix of its list followed by the suffixes of length
      `length - |prefix|` from 0 up, every guess counted, until the target.
      Only the inner loop reads `found`, so with `found` set on entry the
      outer loop passes over the prefixes without a guess. */
  method Worker(target: string, charset: string, length: nat, prefixes: seq<string>, found: bool, ghost k: nat)
    returns (hit: bool, attempts: nat)
    requires k <= length && Uniform(prefixes, k)
    ensures found ==> !hit && attempts == 0
    ensures hit ==> |target| == length
    ensures !found ==>
      Outcome(if hit then Some(target) else None, attempts) == Evaluate(Cross(prefixes, LittleProduct(charset, length - k)), target)
  {
    ghost var ss := LittleProduct(charset, length - k);
    attempts := 0;
    var i := 0;
    while i < |prefixes|
      invariant i <= |prefixes|
      invariant found ==> attempts == 0
      invariant !found ==> target !in Cross(prefixes[..i], ss) && attempts == |Cross(prefixes[..i], ss)|
    {
      if !found {
        var h;
        h, attempts := ScanListPrefix(target, charset, length, prefixes, i, attempts, k);
        if h {
          return true, attempts;
        }
      }
      i := i + 1;
    }
    if !found {
      assert prefixes[..i] == prefixes;
    }
    hit := false;
  }

  /** One pass of `worker`'s outer loop: prefix i followed by the suffixes
      until the target. After earlier prefixes that all missed, a hit is the
      worker's answer; a miss extends the part known to miss by one block. */
  method ScanListPrefix(target: string, charset: string, length: nat, prefixes: seq<string>, i: nat, attempts: nat,
                        ghost k: nat)
    returns (hit: bool, attempts': nat)
    requires k <= length && Uniform(prefixes, k) && i < |prefixes|
    requires target !in Cross(prefixes[..i], LittleProduct(charset, length - k))
    requires attempts == |Cross(prefixes[..i], LittleProduct(charset, length - k))|
    ensures hit ==> |target| == length
    ensures hit ==> Outcome(Some(target), attempts') == Evaluate(Cross(prefixes, LittleProduct(charset, length - k)), target)
    ensures !hit ==> target !in Cross(prefixes[..i + 1], LittleProduct(charset, length - k))
    ensures !hit ==> attempts' == |Cross(prefixes[..i + 1], LittleProduct(charset, length - k))|
  {
    var prefix := prefixes[i];
    var suffixLen := length - |prefix|;
    assert suffixLen == length - k;
    ghost var ss := LittleProduct(charset, suffixLen);
    var count;
    hit, count := CppRange.ScanSuffixes(target, charset, prefix, suffixLen);
    attempts' := attempts + count;
    if hit {
      CrossHit(prefixes, ss, i, count - 1, target);
    } else {
      CrossMiss(prefixes, ss, i, target);
    }
  }

  /** A slice of a list of words of length k holds words of length k. */
  lemma SliceUniform(xs: seq<string>, s: nat, e: nat, k: nat)
    requires e <= |xs| && Uniform(xs, k)
    ensures Uniform(Slice(xs, s, e), k)
  {
    if s < e {
      assert forall i :: 0 <= i < e - s ==> xs[s..e][i] == xs[s + i];
    }
  }

  /** Thread t of one stratum: a copy of its slice [t * chunk, min(t * chunk
      + chunk, P)) of the prefix list handed to `worker`, whose attempts go to
      the shared counter and whose match sets the shared `found`. It keeps
      the fold of the thread reports: after it, the state is the fold of
      reports 0..t. */
  method RunThread(target: string, charset: string, length: nat, prefixes: seq<string>, threads: nat, chunk: nat,
                   t: nat, found: bool, attempts: nat, ghost k: nat)
    returns (found': bool, attempts': nat)
    requires 1 <= k <= length && t < threads && Uniform(prefixes, k)
    requires chunk == CeilDiv(|prefixes|, threads)
    requires found ==> |target| == length
    requires Folded(CppRange.ThreadReports(prefixes, LittleProduct(charset, length - k), threads, target),
                    t, found, attempts, target)
    ensures found ==> found' && attempts' == attempts
    ensures found' ==> |target| == length
    ensures Folded(CppRange.ThreadReports(prefixes, LittleProduct(charset, length - k), threads, target),
                   t + 1, found', attempts', target)
  {
    var start := t * chunk;
    var end := Min(start + chunk, |prefixes|);
    var mine := Slice(prefixes, start, end);
    SliceUniform(prefixes, start, end, k);
    var hit, a := Worker(target, charset, length, mine, found, k);
    ghost var ss := LittleProduct(charset, length - k);
    CppRange.ThreadStep(prefixes, ss, threads, target, t, start, end, found, attempts, hit, a);
    found', attempts' := found || hit, attempts + a;
  }

  /** The thread loop of one stratum over a list of prefixes of length k:
      the result is the fold of the thread reports in thread order. */
  method RunThreads(target: string, charset: string, length: nat, prefixes: seq<string>, threads: nat, ghost k: nat)
    returns (found: bool, attempts: nat)
    requires 1 <= k <= length && threads > 0 && Uniform(prefixes, k)
    ensures found ==> |target| == length
    ensures Outcome(if found then Some(target) else None, attempts) ==
      Aggregate(CppRange.ThreadReports(prefixes, LittleProduct(charset, length - k), threads, target))
  {
    var chunk := CeilDiv(|prefixes|, threads);
    found := false;
    attempts := 0;
    var t := 0;
    while t < threads
      invariant t <= threads
      invariant found ==> |target| == length
      invariant Folded(CppRange.ThreadReports(prefixes, LittleProduct(charset, length - k), threads, target),
                       t, found, attempts, target)
    {
      found, attempts := RunThread(target, charset, length, prefixes, threads, chunk, t, found, attempts, k);
      t := t + 1;
    }
    FoldedDone(CppRange.ThreadReports(prefixes, LittleProduct(charset, length - k), threads, target), found, attempts, target);
  }

  /** The search of stratum l: the little-endian prefixes of length
      `PrefixLen(l)` crossed with the little-endian suffixes. */
  function ListStratum(cs: string, l: nat, t: string): Outcome
    requires l >= 1
  {
    Evaluate(Cross(LittleProduct(cs, PrefixLen(l)), LittleProduct(cs, l - PrefixLen(l))), t)
  }

  /** The reports of strata 1..L. */
  function ListStrata(cs: string, L: nat, t: string): (es: seq<Outcome>)
    ensures |es| == L
  {
    seq(L, i requires 0 <= i < L => ListStratum(cs, i + 1, t))
  }

  /** One stratum of `parallel_brute_force`: the prefix list, the thread
      slices, the threads; its result is the search of the stratum. */
  method RunStratum(target: string, charset: string, length: nat, threads: nat)
    returns (found: bool, attempts: nat)
    requires length >= 1 && threads > 0
    ensures found ==> |target| == length
    ensures Outcome(if found then Some(target) else None, attempts) == ListStratum(charset, length, target)
  {
    var k := PrefixLen(length);
    var prefixes := GeneratePrefixes(charset, k);
    LittleProductUniform(charset, k);
    found, attempts := RunThreads(target, charset, length, prefixes, threads, k);
    ghost var ss := LittleProduct(charset, length - k);
    CppRange.ThreadReportsFold(prefixes, ss, k, threads, target);
    assert Outcome(if found then Some(target) else None, attempts) == Evaluate(Cross(prefixes, ss), target);
  }

  /** `parallel_brute_force`: strata 1..maxLength while `found` is unset, all
      threads adding to one counter. */
  method ParallelBruteForce(target: string, charset: string, maxLength: nat, threads: nat)
    returns (found: bool, total: nat)
    requires threads > 0
    ensures Outcome(if found then Some(target) else None, total) == Aggregate(ListStrata(charset, maxLength, target))
  {
    ghost var es := ListStrata(charset, maxLength, target);
    found := false;
    total := 0;
    var length := 1;
    while length <= maxLength && !found
      invariant 1 <= length <= maxLength + 1 || (maxLength == 0 && length == 1)
      invariant found ==> Outcome(Some(target), total) == Aggregate(es)
      invariant !found ==>
        Aggregate(es) == Outcome(Aggregate(es[length - 1..]).guess, total + Aggregate(es[length - 1..]).attempts)
    {
      var hit, a := RunStratum(target, charset, length, threads);
      AggregateFrom(es, length - 1);
      total := total + a;
      found := hit;
      length := length + 1;
    }
    if !found {
      assert es[length - 1..] == [];
    }
  }

  /** Where the list order reaches t: its prefix's little-endian index times
      the number of suffixes, plus its suffix's little-endian index. */
  function ListRank(cs: string, t: string): (r: nat)
    requires Over(cs, t) && |t| >= 1
  {
    var k := PrefixLen(|t|);
    CppRange.OverSplit(cs, t, k);
    RankLittle(cs, t[..k]) * Pow(|cs|, |t| - k) + RankLittle(cs, t[k..])
  }

  /** The closed form of stratum l: a word of that length over the charset is
      found at its list rank plus one; anything else after all m^l guesses. */
  function ListClosed(cs: string, l: nat, t: string): Outcome
  {
    if |t| == l && l >= 1 && Over(cs, t) then Outcome(Some(t), ListRank(cs, t) + 1)
    else Outcome(None, Pow(|cs|, l))
  }

  /** A word over the charset of length k + n is found among the
      little-endian prefixes of length k crossed with the little-endian
      suffixes of length n at its prefix's rank times m^n plus its suffix's
      rank, plus one. */
  lemma CrossLittleHit(cs: string, k: nat, n: nat, t: string)
    requires Distinct(cs) && |t| == k + n && Over(cs, t[..k]) && Over(cs, t[k..])
    ensures Evaluate(Cross(LittleProduct(cs, k), LittleProduct(cs, n)), t).guess == Some(t)
    ensures Evaluate(Cross(LittleProduct(cs, k), LittleProduct(cs, n)), t).attempts ==
      RankLittle(cs, t[..k]) * |LittleProduct(cs, n)| + RankLittle(cs, t[k..]) + 1
  {
    var ps, ss := LittleProduct(cs, k), LittleProduct(cs, n);
    var r1, r2 := RankLittle(cs, t[..k]), RankLittle(cs, t[k..]);
    assert Evaluate(ps, t[..k]) == Outcome(Some(t[..k]), r1 + 1) by {
      EvaluateLittleProduct(cs, k, t[..k]);
    }
    assert Evaluate(ss, t[k..]) == Outcome(Some(t[k..]), r2 + 1) by {
      EvaluateLittleProduct(cs, n, t[k..]);
    }
    LittleProductUniform(cs, k);
    CrossHitClosed(ps, ss, k, t, r1, r2);
  }

  /** A word of length l over the charset is found at its list rank plus one. */
  lemma ListStratumHit(cs: string, l: nat, t: string)
    requires Distinct(cs) && l >= 1 && |t| == l && Over(cs, t)
    ensures ListStratum(cs, l, t) == Outcome(Some(t), ListRank(cs, t) + 1)
  {
    var k := PrefixLen(l);
    CppRange.OverSplit(cs, t, k);
    var e := Evaluate(Cross(LittleProduct(cs, k), LittleProduct(cs, l - k)), t);
    assert ListStratum(cs, l, t) == e;
    CrossLittleHit(cs, k, l - k, t);
    ListRankSplit(cs, t, k);
  }

  /** The list rank with its radix written as the number of suffixes. */
  lemma ListRankSplit(cs: string, t: string, k: nat)
    requires Over(cs, t) && |t| >= 1 && k == PrefixLen(|t|)
    ensures Over(cs, t[..k]) && Over(cs, t[k..])
    ensures ListRank(cs, t) == RankLittle(cs, t[..k]) * |LittleProduct(cs, |t| - k)| + RankLittle(cs, t[k..])
  {
    CppRange.OverSplit(cs, t, k);
  }

  /** A stratum holds m^l guesses: m^k prefixes times m^(l-k) suffixes. */
  lemma StratumSize(cs: string, l: nat)
    requires l >= 1
    ensures |LittleProduct(cs, PrefixLen(l))| * |LittleProduct(cs, l - PrefixLen(l))| == Pow(|cs|, l)
  {
    var k := PrefixLen(l);
    PowAdd(|cs|, k, l - k);
    assert k + (l - k) == l;
  }

  /** Any other target is not found after all m^l guesses. */
  lemma ListStratumMiss(cs: string, l: nat, t: string)
    requires Distinct(cs) && l >= 1 && !(|t| == l && Over(cs, t))
    ensures ListStratum(cs, l, t) == Outcome(None, Pow(|cs|, l))
  {
    var k := PrefixLen(l);
    LittleSplitMiss(cs, k, l - k, t);
    LittleProductUniform(cs, k);
    StratumSize(cs, l);
    CrossMissClosed(LittleProduct(cs, k), LittleProduct(cs, l - k), k, t);
  }

  /** A target that is not a word of length k + n over the charset is too
      short, or its first k characters are not a prefix, or the rest is not
      a suffix. */
  lemma LittleSplitMiss(cs: string, k: nat, n: nat, t: string)
    requires Distinct(cs) && !(|t| == k + n && Over(cs, t))
    ensures |t| < k || Evaluate(LittleProduct(cs, k), t[..k]).guess.None? || Evaluate(LittleProduct(cs, n), t[k..]).guess.None?
  {
    if |t| >= k {
      CppRange.OverSplit(cs, t, k);
      EvaluateLittleProduct(cs, k, t[..k]);
      EvaluateLittleProduct(cs, n, t[k..]);
    }
  }

  /** A stratum in closed form, for a charset without repeats. */
  lemma ListStratumClosed(cs: string, l: nat, t: string)
    requires Distinct(cs) && l >= 1
    ensures ListStratum(cs, l, t) == ListClosed(cs, l, t)
  {
    if |t| == l && Over(cs, t) {
      ListStratumHit(cs, l, t);
    } else {
      ListStratumMiss(cs, l, t);
    }
  }

  /** A word over the charset reaches index ListRank < m^|t| in its stratum. */
  lemma ListRankBound(cs: string, t: string)
    requires Over(cs, t) && |t| >= 1
    ensures ListRank(cs, t) < Pow(|cs|, |t|)
  {
    var k := PrefixLen(|t|);
    var m := |cs|;
    CppRange.OverSplit(cs, t, k);
    CppRange.MixedBound(RankLittle(cs, t[..k]), RankLittle(cs, t[k..]), Pow(m, k), Pow(m, |t| - k));
    PowAdd(m, k, |t| - k);
    assert k + (|t| - k) == |t|;
  }

  /** The whole run in closed form: a target of length at least one over a
      charset without repeats is found after all shorter candidates plus its
      list rank plus one; any other target exhausts lengths 1..|t|. */
  lemma ListSearch(cs: string, t: string)
    requires Distinct(cs)
    ensures Aggregate(ListStrata(cs, |t|, t)) ==
      if t != [] && Over(cs, t) then Outcome(Some(t), SumPow(|cs|, |t| - 1) + ListRank(cs, t) + 1)
      else Outcome(None, SumPow(|cs|, |t|))
  {
    if t != [] {
      ListStrataClosed(cs, t);
      AggregateListClosed(ListStrata(cs, |t|, t), cs, t);
    }
  }

  /** Every stratum up to the target's length in closed form. */
  lemma ListStrataClosed(cs: string, t: string)
    requires Distinct(cs)
    ensures forall j :: 0 <= j < |t| ==> ListStrata(cs, |t|, t)[j] == ListClosed(cs, j + 1, t)
  {
    forall j | 0 <= j < |t|
      ensures ListStrata(cs, |t|, t)[j] == ListClosed(cs, j + 1, t)
    {
      ListStratumClosed(cs, j + 1, t);
    }
  }

  /** Folding the closed forms of strata 1..|t|: every stratum shorter than
      the target is a miss of m^l guesses, the last one decides. */
  lemma AggregateListClosed(es: seq<Outcome>, cs: string, t: string)
    requires |es| == |t| >= 1
    requires forall j :: 0 <= j < |es| ==> es[j] == ListClosed(cs, j + 1, t)
    ensures Aggregate(es) ==
      if Over(cs, t) then Outcome(Some(t), SumPow(|cs|, |t| - 1) + ListRank(cs, t) + 1)
      else Outcome(None, SumPow(|cs|, |t|))
  {
    AggregateAfterMisses(es, |cs|, 0);
  }

  /** `main`: the line read (not stripped), the charset with punctuation
      added one character at a time and no check for an empty charset, then
      the search up to the target's length. A target is found iff it is
      non-empty and every character is findable that way; with no findable
      character every stratum has no prefix, so nothing is tried. */
  method CrackList(line: string, threads: nat) returns (o: Outcome)
    requires threads > 0
    ensures var cs := CppCharset(line, true);
      && (o.guess.Some? <==> line != [] && forall k :: 0 <= k < |line| ==> Findable(line[k], true))
      && o == (if line != [] && Over(cs, line) then Outcome(Some(line), SumPow(|cs|, |line| - 1) + ListRank(cs, line) + 1)
               else Outcome(None, SumPow(|cs|, |line|)))
  {
    var charset := DetectCppCharset(line, true);
    CppCharsetDistinct(line, true);
    CppCharsetCovers(line, true);
    ListSearch(charset, line);
    var found, total := ParallelBruteForce(line, charset, |line|, threads);
    o := Outcome(if found then Some(line) else None, total);
  }
}
