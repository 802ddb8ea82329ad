/** The threaded C++ crackers c++_cracker_CPU.cpp and c++_cracker_CPU.c++.
    A stratum's prefixes are numbered 0..P-1 (P = m^k, k = PrefixLen) and
    decoded big-endian by `int_to_prefix`; thread t takes the index range
    [t * c, min(t * c + c, P)) with c = ceil(P / T); each prefix is followed
    by the suffixes decoded little-endian from 0, 1, ..., m^(n-k) - 1. The
    threads share `found` and `total_attempts`; the model runs them one after
    the other in thread order, so a thread started after the match sees
    `found` set and does nothing. */
module CppRange {
  import opened Wrappers
  import opened Arith
  import opened Keyspace
  import opened Search
  import opened Partition
  import opened CppAlphabet

  /** `int_to_prefix`: positions prefixLen-1 down to 0 receive the digits of
      idx from the least significant on, so the prefix is idx's big-endian
      decoding. */
  method IntToPrefix(idx: nat, prefixLen: nat, charset: string) returns (prefix: string)
    requires prefixLen > 0 ==> |charset| > 0
    ensures prefix == DecodeBig(charset, idx, prefixLen)
  {
    var m := |charset|;
    prefix := seq(prefixLen, _ => ' ');
    var n := idx;
    var i := prefixLen;
    var b := 0;
    while b < prefixLen
      invariant b <= prefixLen && i == prefixLen - b && |prefix| == prefixLen
      invariant prefix[i..] == DecodeBig(charset, idx, b)
      invariant prefixLen > 0 ==> n == idx / Pow(m, b)
    {
      i := i - 1;
      DecodeBigFront(charset, idx, b);
      DivPowSucc(idx, m, b);
      var before := prefix;
      prefix := prefix[i := charset[n % m]];
      assert prefix[i..] == [charset[n % m]] + before[i + 1..];
      n := n / m;
      b := b + 1;
    }
  }

  /** The guess loop `guess = prefix; for j < suffixLen: guess += charset[n %
      m]; n /= m`: the prefix followed by the little-endian decoding of i. */
  method AppendSuffix(prefix: string, i: nat, suffixLen: nat, charset: string) returns (guess: string)
    requires suffixLen > 0 ==> |charset| > 0
    ensures guess == prefix + DecodeLittle(charset, i, suffixLen)
  {
    var m := |charset|;
    guess := prefix;
    var n := i;
    var j := 0;
    while j < suffixLen
      invariant j <= suffixLen
      invariant guess == prefix + DecodeLittle(charset, i, j)
      invariant n == i / Pow(m, j)
    {
      DecodeLittleSnoc(charset, i, j);
      DivPowSucc(i, m, j);
      guess := guess + [charset[n % m]];
      n := n / m;
      j := j + 1;
    }
  }

  /** The inner loop of `worker` for one prefix: suffixes 0, 1, ... of the
      little-endian order until the guess equals the target. (The loop also
      tests the shared `found`, which is unset whenever this loop runs in
      the one-thread-at-a-time model.) The count is the 1-based position of
      the match, or every suffix when there is none. */
  method ScanSuffixes(target: string, charset: string, prefix: string, suffixLen: nat)
    returns (hit: bool, count: nat)
    ensures hit ==> 1 <= count <= |LittleProduct(charset, suffixLen)|
    ensures hit ==> prefix + LittleProduct(charset, suffixLen)[count - 1] == target
    ensures !hit ==> count == |LittleProduct(charset, suffixLen)|
    ensures MissesBefore(prefix, LittleProduct(charset, suffixLen), target, count - (if hit then 1 else 0))
  {
    ghost var ss := LittleProduct(charset, suffixLen);
    var totalCombos := Pow(|charset|, suffixLen);
    if suffixLen > 0 && |charset| == 0 {
      PowZeroBase(suffixLen);
    }
    assert totalCombos == |ss|;
    count := 0;
    while count < totalCombos
      invariant count <= totalCombos
      invariant MissesBefore(prefix, ss, target, count)
    {
      var matched := TrySuffix(target, charset, prefix, suffixLen, count);
      if matched {
        return true, count + 1;
      }
      MissesStep(prefix, ss, target, count);
      count := count + 1;
    }
    hit := false;
  }

  /** One guess of that loop: the prefix followed by suffix i, compared with
      the target. */
  method TrySuffix(target: string, charset: string, prefix: string, suffixLen: nat, i: nat) returns (matched: bool)
    requires i < |LittleProduct(charset, suffixLen)|
    ensures matched <==> prefix + LittleProduct(charset, suffixLen)[i] == target
  {
    var guess := AppendSuffix(prefix, i, suffixLen, charset);
    matched := guess == target;
  }

  /** One pass of `worker`'s outer loop: prefix number prefixIdx, built by
      `int_to_prefix`, followed by the suffixes until the target appears. */
  method ScanPrefix(target: string, charset: string, length: nat, prefixLen: nat, prefixIdx: nat)
    returns (hit: bool, count: nat)
    requires 1 <= prefixLen <= length && prefixIdx < Pow(|charset|, prefixLen)
    ensures hit ==> |target| == length
    ensures hit ==> 1 <= count <= |LittleProduct(charset, length - prefixLen)|
    ensures hit ==> Product(charset, prefixLen)[prefixIdx] + LittleProduct(charset, length - prefixLen)[count - 1] == target
    ensures !hit ==> count == |LittleProduct(charset, length - prefixLen)|
    ensures MissesBefore(Product(charset, prefixLen)[prefixIdx], LittleProduct(charset, length - prefixLen), target,
                         count - (if hit then 1 else 0))
  {
    PowZeroBase(prefixLen);
    var prefix := IntToPrefix(prefixIdx, prefixLen, charset);
    ProductAt(charset, prefixLen, prefixIdx);
    hit, count := ScanSuffixes(target, charset, prefix, length - prefixLen);
  }

  /** `worker`: prefixes start..end-1 (none when start >= end), each followed
      by every suffix, while `found` is unset. With `found` set on entry it
      makes no attempt; otherwise its count is the 1-based position of the
      match among its guesses, or all (end - start) * m^(length - k) of them. */
  method Worker(target: string, charset: string, length: nat, prefixLen: nat, start: nat, end: nat, found: bool)
    returns (hit: bool, attempts: nat)
    requires 1 <= prefixLen <= length && end <= Pow(|charset|, prefixLen)
    ensures found ==> !hit && attempts == 0
    ensures hit ==> |target| == length
    ensures !found ==>
      Outcome(if hit then Some(target) else None, attempts)
        == Evaluate(Cross(Slice(Product(charset, prefixLen), start, end), LittleProduct(charset, length - prefixLen)), target)
  {
    ghost var prefixes := Slice(Product(charset, prefixLen), start, end);
    ghost var ss := LittleProduct(charset, length - prefixLen);
    attempts := 0;
    var prefixIdx := start;
    while prefixIdx < end && !found
      invariant start <= prefixIdx
      invariant start < end ==> prefixIdx <= end
      invariant start >= end || found ==> prefixIdx == start
      invariant RangeMissed(target, charset, length, prefixLen, start, end, prefixIdx - start, attempts)
    {
      var here;
      here, attempts := ScanRangePrefix(target, charset, length, prefixLen, start, end, prefixIdx, attempts);
      if here {
        return true, attempts;
      }
      prefixIdx := prefixIdx + 1;
    }
    if !found && start < end {
      assert prefixes[..prefixIdx - start] == prefixes;
    }
    hit := false;
  }

  /** The first n prefixes of a worker's range, each followed by every
      suffix, all miss the target and took `attempts` guesses. */
  ghost predicate RangeMissed(target: string, charset: string, length: nat, prefixLen: nat, start: nat, end: nat,
                              n: nat, attempts: nat)
    requires prefixLen <= length && end <= Pow(|charset|, prefixLen)
  {
    var prefixes := Slice(Product(charset, prefixLen), start, end);
    n <= |prefixes|
    && target !in Cross(prefixes[..n], LittleProduct(charset, length - prefixLen))
    && attempts == |Cross(prefixes[..n], LittleProduct(charset, length - prefixLen))|
  }

  /** One pass of `worker`'s outer loop: prefix `prefixIdx` of the range
      followed by the suffixes until the target. After earlier prefixes that
      all missed, a hit is the worker's answer; a miss extends the part
      known to miss by one block. */
  method ScanRangePrefix(target: string, charset: string, length: nat, prefixLen: nat, start: nat, end: nat,
                         prefixIdx: nat, attempts: nat)
    returns (hit: bool, attempts': nat)
    requires 1 <= prefixLen <= length && start <= prefixIdx < end <= Pow(|charset|, prefixLen)
    requires RangeMissed(target, charset, length, prefixLen, start, end, prefixIdx - start, attempts)
    ensures hit ==> |target| == length
    ensures hit ==>
      Outcome(Some(target), attempts')
        == Evaluate(Cross(Slice(Product(charset, prefixLen), start, end), LittleProduct(charset, length - prefixLen)), target)
    ensures !hit ==> RangeMissed(target, charset, length, prefixLen, start, end, prefixIdx - start + 1, attempts')
  {
    ghost var all := Product(charset, prefixLen);
    ghost var prefixes := Slice(all, start, end);
    ghost var ss := LittleProduct(charset, length - prefixLen);
    ghost var j: nat := prefixIdx - start;
    var count;
    hit, count := ScanPrefix(target, charset, length, prefixLen, prefixIdx);
    assert all[prefixIdx] == prefixes[j];
    attempts' := attempts + count;
    PrefixStep(prefixes, ss, j, target, hit, count, attempts);
  }

  /** The order a stratum is searched in: the big-endian prefixes of length
      k = PrefixLen(l), each followed by the little-endian suffixes. */
  function RangeStratum(cs: string, l: nat, t: string): Outcome
    requires l >= 1
  {
    Evaluate(Cross(Product(cs, PrefixLen(l)), LittleProduct(cs, l - PrefixLen(l))), t)
  }

  /** The reports of strata 1..L. */
  function RangeStrata(cs: string, L: nat, t: string): (es: seq<Outcome>)
    ensures |es| == L
  {
    seq(L, i requires 0 <= i < L => RangeStratum(cs, i + 1, t))
  }

  /** One stratum of `parallel_brute_force`: T threads over the index ranges,
      run in thread order; the attempts of every thread are added to the
      shared counter. The result is the search of the stratum in the range
      order. */
  method RunStratum(target: string, charset: string, length: nat, threads: nat)
    returns (found: bool, attempts: nat)
    requires length >= 1 && threads > 0
    ensures found ==> |target| == length
    ensures Outcome(if found then Some(target) else None, attempts) == RangeStratum(charset, length, target)
  {
    var k := PrefixLen(length);
    found, attempts := RunThreads(target, charset, length, threads);
    ghost var ps, ss := Product(charset, k), LittleProduct(charset, length - k);
    ghost var e := Evaluate(Cross(ps, ss), target);
    ProductUniform(charset, k);
    ThreadReportsFold(ps, ss, k, threads, target);
    assert RangeStratum(charset, length, target) == e;
  }

  /** The thread loop of one stratum: thread t gets [t * c, min(t * c + c, P))
      with c = ceil(P / T); their attempts add up on one counter, and the
      threads after the one that finds the target do nothing. The result is
      the fold of the thread reports in thread order. */
  method RunThreads(target: string, charset: string, length: nat, threads: nat)
    returns (found: bool, attempts: nat)
    requires length >= 1 && threads > 0
    ensures found ==> |target| == length
    ensures Outcome(if found then Some(target) else None, attempts) ==
      Aggregate(ThreadReports(Product(charset, PrefixLen(length)), LittleProduct(charset, length - PrefixLen(length)), threads, target))
  {
    var k := PrefixLen(length);
    var total := Pow(|charset|, k);
    var chunk := CeilDiv(total, threads);
    found := false;
    attempts := 0;
    var t := 0;
    while t < threads
      invariant t <= threads
      invariant found ==> |target| == length
      invariant Folded(ThreadReports(Product(charset, k), LittleProduct(charset, length - k), threads, target), t, found, attempts, target)
    {
      found, attempts := RunThread(target, charset, length, k, threads, total, chunk, t, found, attempts);
      t := t + 1;
    }
    FoldedDone(ThreadReports(Product(charset, k), LittleProduct(charset, length - k), threads, target), found, attempts, target);
  }

  /** Thread t of one stratum: `worker` on the index range [t * chunk,
      min(t * chunk + chunk, total)) the thread loop of `parallel_brute_force`
      hands it, adding its attempts to the shared counter and setting the
      shared `found` on a match. It keeps the fold of the thread reports:
      after it, the state is the fold of reports 0..t. */
  method RunThread(target: string, charset: string, length: nat, prefixLen: nat, threads: nat, total: nat, chunk: nat,
                   t: nat, found: bool, attempts: nat)
    returns (found': bool, attempts': nat)
    requires 1 <= prefixLen <= length && t < threads
    requires total == Pow(|charset|, prefixLen) && chunk == CeilDiv(total, threads)
    requires found ==> |target| == length
    requires Folded(ThreadReports(Product(charset, prefixLen), LittleProduct(charset, length - prefixLen), threads, target),
                    t, found, attempts, target)
    ensures found ==> found' && attempts' == attempts
    ensures found' ==> |target| == length
    ensures Folded(ThreadReports(Product(charset, prefixLen), LittleProduct(charset, length - prefixLen), threads, target),
                   t + 1, found', attempts', target)
  {
    ghost var ps, ss := Product(charset, prefixLen), LittleProduct(charset, length - prefixLen);
    assert |ps| == total;
    var start: nat := t * chunk;
    var end: nat := if start + chunk <= total then start + chunk else total;
    var hit, a := Worker(target, charset, length, prefixLen, start, end, found);
    ThreadStep(ps, ss, threads, target, t, start, end, found, attempts, hit, a);
    found', attempts' := found || hit, attempts + a;
  }

  /** Thread t's report taken into the fold: a thread that starts after the
      match adds nothing; otherwise its report is the search of its range. */
  lemma ThreadStep(ps: seq<string>, ss: seq<string>, threads: nat, target: string, t: nat, start: nat, end: nat,
                   found: bool, attempts: nat, hit: bool, a: nat)
    requires t < threads
    requires start == t * CeilDiv(|ps|, threads) && end == Min(start + CeilDiv(|ps|, threads), |ps|)
    requires Folded(ThreadReports(ps, ss, threads, target), t, found, attempts, target)
    requires found ==> !hit && a == 0
    requires hit ==> target != []
    requires !found ==> Outcome(if hit then Some(target) else None, a) == Evaluate(Cross(Slice(ps, start, end), ss), target)
    ensures Folded(ThreadReports(ps, ss, threads, target), t + 1, found || hit, attempts + a, target)
  {
    if !found {
      ThreadReportAt(ps, ss, threads, target, t, start, end);
    }
    FoldedStep(ThreadReports(ps, ss, threads, target), t, found, attempts, target, hit, a);
  }

  /** What each of T threads reports when it runs alone on its slice of the
      prefixes ps (each followed by the suffixes ss), in thread order. */
  ghost function ThreadReports(ps: seq<string>, ss: seq<string>, threads: nat, t: string): (es: seq<Outcome>)
    requires threads > 0
    ensures |es| == threads
  {
    Reports(Parts(ps, CeilDiv(|ps|, threads), threads), ss, t)
  }

  /** The search of each part (followed by the suffixes), part by part. */
  ghost function Reports(parts: seq<seq<string>>, ss: seq<string>, t: string): (es: seq<Outcome>)
    ensures |es| == |parts|
  {
    if parts == [] then []
    else Reports(parts[..|parts| - 1], ss, t) + [Evaluate(Cross(parts[|parts| - 1], ss), t)]
  }

  /** Report q is the search of part q. */
  lemma {:induction false} ReportsAt(parts: seq<seq<string>>, ss: seq<string>, t: string, q: nat)
    requires q < |parts|
    ensures Reports(parts, ss, t)[q] == Evaluate(Cross(parts[q], ss), t)
    decreases |parts|
  {
    if q < |parts| - 1 {
      ReportsAt(parts[..|parts| - 1], ss, t, q);
    }
  }

  /** Thread q's report is the search of its index range [q * c, min(q * c + c, P)). */
  lemma ThreadReportAt(ps: seq<string>, ss: seq<string>, threads: nat, t: string, q: nat, start: nat, end: nat)
    requires q < threads
    requires start == q * CeilDiv(|ps|, threads) && end == Min(start + CeilDiv(|ps|, threads), |ps|)
    ensures ThreadReports(ps, ss, threads, t)[q] == Evaluate(Cross(Slice(ps, start, end), ss), t)
  {
    var parts := Parts(ps, CeilDiv(|ps|, threads), threads);
    PartsAt(ps, CeilDiv(|ps|, threads), threads, q);
    ReportsAt(parts, ss, t, q);
  }

  /** Folding the thread reports in thread order gives the search of all
      prefixes: the ranges tile the prefixes in order. */
  lemma ThreadReportsFold(ps: seq<string>, ss: seq<string>, k: nat, threads: nat, t: string)
    requires Uniform(ps, k) && k >= 1 && threads > 0
    ensures Aggregate(ThreadReports(ps, ss, threads, t)) == Evaluate(Cross(ps, ss), t)
  {
    var parts := Parts(ps, CeilDiv(|ps|, threads), threads);
    forall q | 0 <= q < threads
      ensures ThreadReports(ps, ss, threads, t)[q] == Evaluate(Cross(parts[q], ss), t)
    {
      ReportsAt(parts, ss, t, q);
    }
    PartsCover(ps, threads);
    EvaluateCross(ps, ss, k, []);
    AggregateCross(parts, ss, ThreadReports(ps, ss, threads, t), t);
  }

  /** `parallel_brute_force`: strata 1..maxLength while `found` is unset, all
      threads adding to one counter. */
  method ParallelBruteForce(target: string, charset: string, maxLength: nat, threads: nat)
    returns (found: bool, total: nat)
    requires threads > 0
    ensures Outcome(if found then Some(target) else None, total) == Aggregate(RangeStrata(charset, maxLength, target))
  {
    ghost var es := RangeStrata(charset, maxLength, target);
    found := false;
    total := 0;
    var length := 1;
    while length <= maxLength && !found
      invariant 1 <= length <= maxLength + 1 || (maxLength == 0 && length == 1)
      invariant found ==> Outcome(Some(target), total) == Aggregate(es)
      invariant !found ==>
        Aggregate(es) == Outcome(Aggregate(es[length - 1..]).guess, total + Aggregate(es[length - 1..]).attempts)
    {
      var hit, a := RunStratum(target, charset, length, threads);
      AggregateFrom(es, length - 1);
      total := total + a;
      found := hit;
      length := length + 1;
    }
    if !found {
      assert es[length - 1..] == [];
    }
  }

  /** Where the range order reaches t: its big-endian prefix's index times
      the number of suffixes, plus its suffix's little-endian index. */
  function RangeRank(cs: string, t: string): (r: nat)
    requires Over(cs, t) && |t| >= 1
  {
    var k := PrefixLen(|t|);
    OverSplit(cs, t, k);
    var hi: nat := Rank(cs, t[..k]);
    var width: nat := Pow(|cs|, |t| - k);
    var lo: nat := RankLittle(cs, t[k..]);
    hi * width + lo
  }

  /** A word is over cs iff both of its parts at k are. */
  lemma OverSplit(cs: string, t: string, k: nat)
    requires k <= |t|
    ensures Over(cs, t) <==> Over(cs, t[..k]) && Over(cs, t[k..])
  {
    if Over(cs, t[..k]) && Over(cs, t[k..]) {
      forall j | 0 <= j < |t|
        ensures t[j] in cs
      {
        if j < k {
          assert t[j] == t[..k][j];
        } else {
          assert t[j] == t[k..][j - k];
        }
      }
    }
  }

  /** A word of length l over the charset is found at its range rank plus one. */
  lemma RangeStratumHit(cs: string, l: nat, t: string)
    requires Distinct(cs) && l >= 1 && |t| == l && Over(cs, t)
    ensures RangeStratum(cs, l, t) == Outcome(Some(t), RangeRank(cs, t) + 1)
  {
    var k := PrefixLen(l);
    OverSplit(cs, t, k);
    CrossProductHit(cs, k, l - k, t);
    RangeRankSplit(cs, t, k);
    var e := Evaluate(Cross(Product(cs, k), LittleProduct(cs, l - k)), t);
    assert e.guess == Some(t);
    assert e.attempts == RangeRank(cs, t) + 1;
    assert RangeStratum(cs, l, t) == e;
  }

  /** The range rank with its radix written as the number of suffixes. */
  lemma RangeRankSplit(cs: string, t: string, k: nat)
    requires Over(cs, t) && |t| >= 1 && k == PrefixLen(|t|)
    ensures Over(cs, t[..k]) && Over(cs, t[k..])
    ensures RangeRank(cs, t) == Rank(cs, t[..k]) * |LittleProduct(cs, |t| - k)| + RankLittle(cs, t[k..])
  {
    OverSplit(cs, t, k);
  }

  /** A word over the charset of length k + n is found in the big-endian
      prefixes of length k crossed with the little-endian suffixes of length
      n at its prefix's rank times m^n plus its suffix's rank, plus one. */
  lemma CrossProductHit(cs: string, k: nat, n: nat, t: string)
    requires Distinct(cs) && |t| == k + n && Over(cs, t[..k]) && Over(cs, t[k..])
    ensures Evaluate(Cross(Product(cs, k), LittleProduct(cs, n)), t).guess == Some(t)
    ensures Evaluate(Cross(Product(cs, k), LittleProduct(cs, n)), t).attempts ==
      Rank(cs, t[..k]) * |LittleProduct(cs, n)| + RankLittle(cs, t[k..]) + 1
  {
    var ps, ss := Product(cs, k), LittleProduct(cs, n);
    var r1, r2 := Rank(cs, t[..k]), RankLittle(cs, t[k..]);
    assert Evaluate(ps, t[..k]) == Outcome(Some(t[..k]), r1 + 1) by {
      EvaluateProduct(cs, k, t[..k]);
    }
    assert Evaluate(ss, t[k..]) == Outcome(Some(t[k..]), r2 + 1) by {
      EvaluateLittleProduct(cs, n, t[k..]);
    }
    ProductUniform(cs, k);
    CrossHitClosed(ps, ss, k, t, r1, r2);
  }

  /** Any other target is not found after all m^l guesses. */
  lemma RangeStratumMiss(cs: string, l: nat, t: string)
    requires Distinct(cs) && l >= 1 && !(|t| == l && Over(cs, t))
    ensures RangeStratum(cs, l, t) == Outcome(None, Pow(|cs|, l))
  {
    var k := PrefixLen(l);
    var ps, ss := Product(cs, k), LittleProduct(cs, l - k);
    assert |t| < k || Evaluate(ps, t[..k]).guess.None? || Evaluate(ss, t[k..]).guess.None? by {
      if |t| >= k {
        OverSplit(cs, t, k);
        EvaluateProduct(cs, k, t[..k]);
        EvaluateLittleProduct(cs, l - k, t[k..]);
      }
    }
    ProductUniform(cs, k);
    StratumSize(cs, l);
    CrossMissClosed(ps, ss, k, t);
  }

  /** A stratum holds m^l guesses: m^k prefixes times m^(l-k) suffixes. */
  lemma StratumSize(cs: string, l: nat)
    requires l >= 1
    ensures |Product(cs, PrefixLen(l))| * |LittleProduct(cs, l - PrefixLen(l))| == Pow(|cs|, l)
  {
    var k := PrefixLen(l);
    PowAdd(|cs|, k, l - k);
    assert k + (l - k) == l;
  }

  /** The closed form of stratum l: a word of that length over the charset is
      found at its range rank plus one; anything else after all m^l guesses. */
  function RangeClosed(cs: string, l: nat, t: string): Outcome
  {
    if |t| == l && l >= 1 && Over(cs, t) then Outcome(Some(t), RangeRank(cs, t) + 1)
    else Outcome(None, Pow(|cs|, l))
  }

  /** A stratum in closed form: a word of that length over a charset without
      repeats is found at its range rank plus one; anything else after all
      m^l guesses. */
  lemma RangeStratumClosed(cs: string, l: nat, t: string)
    requires Distinct(cs) && l >= 1
    ensures RangeStratum(cs, l, t) == RangeClosed(cs, l, t)
  {
    if |t| == l && Over(cs, t) {
      RangeStratumHit(cs, l, t);
    } else {
      RangeStratumMiss(cs, l, t);
    }
  }

  /** Two digits of radix p and q: a * q + b stays below p * q. */
  lemma MixedBound(a: nat, b: nat, p: nat, q: nat)
    requires a < p && b < q
    ensures a * q + b < p * q
  {
    TwoDigitBound(a, p, q, b);
  }

  /** A word over the charset reaches index RangeRank < m^|t| in its stratum. */
  lemma RangeRankBound(cs: string, t: string)
    requires Over(cs, t) && |t| >= 1
    ensures RangeRank(cs, t) < Pow(|cs|, |t|)
  {
    var k := PrefixLen(|t|);
    var m := |cs|;
    OverSplit(cs, t, k);
    MixedBound(Rank(cs, t[..k]), RankLittle(cs, t[k..]), Pow(m, k), Pow(m, |t| - k));
    PowAdd(m, k, |t| - k);
    assert k + (|t| - k) == |t|;
  }

  /** The whole run in closed form: a target of length at least one over a
      charset without repeats is found after all shorter candidates plus its
      range rank plus one; any other target exhausts lengths 1..|t|. */
  lemma RangeSearch(cs: string, t: string)
    requires Distinct(cs)
    ensures Aggregate(RangeStrata(cs, |t|, t)) ==
      if t != [] && Over(cs, t) then Outcome(Some(t), SumPow(|cs|, |t| - 1) + RangeRank(cs, t) + 1)
      else Outcome(None, SumPow(|cs|, |t|))
  {
    if t != [] {
      RangeStrataClosed(cs, t);
      AggregateClosed(RangeStrata(cs, |t|, t), cs, t);
    }
  }

  /** Every stratum up to the target's length in closed form. */
  lemma RangeStrataClosed(cs: string, t: string)
    requires Distinct(cs)
    ensures forall j :: 0 <= j < |t| ==> RangeStrata(cs, |t|, t)[j] == RangeClosed(cs, j + 1, t)
  {
    forall j | 0 <= j < |t|
      ensures RangeStrata(cs, |t|, t)[j] == RangeClosed(cs, j + 1, t)
    {
      RangeStratumClosed(cs, j + 1, t);
    }
  }

  /** Folding the closed forms of strata 1..|t|: every stratum shorter than
      the target is a miss of m^l guesses, the last one decides. */
  lemma AggregateClosed(es: seq<Outcome>, cs: string, t: string)
    requires |es| == |t| >= 1
    requires forall j :: 0 <= j < |es| ==> es[j] == RangeClosed(cs, j + 1, t)
    ensures Aggregate(es) ==
      if Over(cs, t) then Outcome(Some(t), SumPow(|cs|, |t| - 1) + RangeRank(cs, t) + 1)
      else Outcome(None, SumPow(|cs|, |t|))
  {
    AggregateAfterMisses(es, |cs|, 0);
  }

  /** c++_cracker_CPU.cpp's `main`: the line read (not stripped), the charset
      with the punctuation block, an exit with status 1 when it is empty, then
      the search up to the target's length. A target is found iff it is
      non-empty and every character is findable with the block. */
  method CrackBlock(line: string, threads: nat) returns (r: Result<Outcome>)
    requires threads > 0
    ensures var cs := CppCharset(line, false);
      && (r.Failure? <==> forall k :: 0 <= k < |line| ==> !Classified(line[k]))
      && (r.Success? ==> (r.value.guess.Some? <==> line != [] && forall k :: 0 <= k < |line| ==> Findable(line[k], false)))
      && (r.Success? ==>
            r.value == (if line != [] && Over(cs, line) then Outcome(Some(line), SumPow(|cs|, |line| - 1) + RangeRank(cs, line) + 1)
                        else Outcome(None, SumPow(|cs|, |line|))))
  {
    var charset := DetectCppCharset(line, false);
    CppCharsetEmpty(line, false);
    if charset == [] {
      return Failure("No valid characters found in the target password.");
    }
    CppCharsetDistinct(line, false);
    CppCharsetCovers(line, false);
    RangeSearch(charset, line);
    var found, total := ParallelBruteForce(line, charset, |line|, threads);
    return Success(Outcome(if found then Some(line) else None, total));
  }

  /** c++_cracker_CPU.c++'s `main`: the same with punctuation added one
      character at a time and no empty-charset check. With no symbols every
      stratum has no prefix, so nothing is tried. */
  method CrackPerChar(line: string, threads: nat) returns (o: Outcome)
    requires threads > 0
    ensures var cs := CppCharset(line, true);
      && (o.guess.Some? <==> line != [] && forall k :: 0 <= k < |line| ==> Findable(line[k], true))
      && o == (if line != [] && Over(cs, line) then Outcome(Some(line), SumPow(|cs|, |line| - 1) + RangeRank(cs, line) + 1)
               else Outcome(None, SumPow(|cs|, |line|)))
  {
    var charset := DetectCppCharset(line, true);
    CppCharsetDistinct(line, true);
    CppCharsetCovers(line, true);
    RangeSearch(charset, line);
    var found, total := ParallelBruteForce(line, charset, |line|, threads);
    o := Outcome(if found then Some(line) else None, total);
  }
}
