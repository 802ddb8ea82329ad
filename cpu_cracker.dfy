/** The multiprocessing cracker of password_cracker_CPU.py: a worker enumerates
    its chunk of prefixes, each followed by every suffix in `itertools.product`
    order; the coordinator runs the strata of lengths 1..L one after the other,
    cuts each stratum's prefixes into chunks, and folds the workers' reports in
    chunk order. The pool runs the workers in parallel, but `map_async` returns
    the reports in chunk order and every worker runs to completion, so the
    coordinator is modelled by running the workers one after the other. */
module CpuCracker {
  import opened Wrappers
  import opened Arith
  import opened Keyspace
  import opened Search
  import opened Partition
  import opened Alphabet

  /** `worker`: every prefix of the chunk (all of length k), followed by every
      suffix of length `length - k` in lexicographic order; the report is the
      match with its 1-based position, or nothing with the chunk's size. */
  method Worker(target: string, charset: string, length: nat, prefixes: seq<string>, ghost k: nat)
    returns (guess: Option<string>, attempts: nat)
    requires k <= length && Uniform(prefixes, k)
    ensures Outcome(guess, attempts) == Evaluate(Cross(prefixes, Product(charset, length - k)), target)
  {
    ghost var ss := Product(charset, length - k);
    attempts := 0;
    var i := 0;
    while i < |prefixes|
      invariant i <= |prefixes|
      invariant target !in Cross(prefixes[..i], ss)
      invariant attempts == |Cross(prefixes[..i], ss)|
    {
      var prefix := prefixes[i];
      var suffixLen := length - |prefix|;
      if suffixLen == 0 {
        // The prefix alone is the guess: one attempt.
        assert ss == [[]] && prefix + ss[0] == prefix;
        attempts := attempts + 1;
        if prefix == target {
          CrossHit(prefixes, ss, i, 0, target);
          return Some(prefix), attempts;
        }
        CrossMiss(prefixes, ss, i, target);
      } else {
        var combos := Product(charset, suffixLen);
        var j := 0;
        while j < |combos|
          invariant j <= |combos|
          invariant attempts == |Cross(prefixes[..i], ss)| + j
          invariant forall jj :: 0 <= jj < j ==> prefix + combos[jj] != target
        {
          var g := prefix + combos[j];
          attempts := attempts + 1;
          if g == target {
            CrossHit(prefixes, ss, i, j, target);
            return Some(g), attempts;
          }
          j := j + 1;
        }
        CrossMiss(prefixes, ss, i, target);
      }
      i := i + 1;
    }
    assert prefixes[..i] == prefixes;
    return None, attempts;
  }

  /** The fold over the reports (the same loop in all three Python crackers):
      attempts are added in chunk order up to and including the first report
      whose guess is truthy, whose guess becomes the stratum's result. */
  method FoldResults(rs: seq<Outcome>) returns (found: Option<string>, attempts: nat)
    ensures Outcome(found, attempts) == Aggregate(rs)
  {
    found := None;
    attempts := 0;
    var i := 0;
    while i < |rs|
      invariant i <= |rs|
      invariant forall j :: 0 <= j < i ==> !Truthy(rs[j].guess)
      invariant attempts == SumAttempts(rs[..i])
    {
      assert rs[..i + 1][..i] == rs[..i];
      attempts := attempts + rs[i].attempts;
      if Truthy(rs[i].guess) {
        found := rs[i].guess;
        AggregateSplit(rs, i);
        assert rs[i..][0] == rs[i];
        return;
      }
      i := i + 1;
    }
    AggregateSplit(rs, i);
  }

  /** The workers of one stratum, run in chunk order (`pool.map_async(worker, args)`). */
  method RunStratum(target: string, charset: string, length: nat, parts: seq<seq<string>>, ghost k: nat)
    returns (rs: seq<Outcome>)
    requires k <= length
    requires forall q :: 0 <= q < |parts| ==> Uniform(parts[q], k)
    ensures |rs| == |parts|
    ensures forall q :: 0 <= q < |parts| ==> rs[q] == Evaluate(Cross(parts[q], Product(charset, length - k)), target)
  {
    rs := [];
    var j := 0;
    while j < |parts|
      invariant j <= |parts| && |rs| == j
      invariant forall q :: 0 <= q < j ==> rs[q] == Evaluate(Cross(parts[q], Product(charset, length - k)), target)
    {
      var g, a := Worker(target, charset, length, parts[j], k);
      rs := rs + [Outcome(g, a)];
      j := j + 1;
    }
  }

  /** One stratum of `parallel_brute_force_crack`: the prefixes of length
      `PrefixLen(length)` cut into chunks, one worker per chunk, the reports
      folded. The result is the search of all strings of that length over the
      charset, in lexicographic order. */
  method CrackStratum(target: string, charset: string, length: nat, workers: nat)
    returns (r: Result<Outcome>)
    requires workers > 0 && length >= 1
    ensures r.Failure? <==> |charset| == 0
    ensures r.Success? ==> r.value == Stratum(charset, length, target)
  {
    var k := PrefixLen(length);
    var chunks := ChunkProductPrefixes(charset, workers, k);
    if chunks.Failure? {
      return Failure(chunks.error);
    }
    var parts := chunks.value;
    var rs := RunStratum(target, charset, length, parts, k);
    var found, attempts := FoldResults(rs);
    StratumScan(charset, k, length, parts, rs, target);
    return Success(Outcome(found, attempts));
  }

  /** `parallel_brute_force_crack`: strata 1..maxLength in increasing length,
      the running attempt total, and the first stratum whose fold holds a truthy
      match ends the search. An empty charset makes `chunk_prefixes` fail (a
      range with step 0) at the first stratum. */
  method ParallelCrack(target: string, charset: string, maxLength: nat, workers: nat)
    returns (r: Result<Outcome>)
    requires workers > 0
    ensures r.Failure? <==> |charset| == 0 && maxLength > 0
    ensures r.Success? ==> r.value == Aggregate(Strata(charset, maxLength, target))
  {
    ghost var es := Strata(charset, maxLength, target);
    var total: nat := 0;
    var done: nat := 0;
    while done < maxLength
      invariant done <= maxLength
      invariant |charset| == 0 ==> done == 0
      invariant Aggregate(es) == Outcome(Aggregate(es[done..]).guess, total + Aggregate(es[done..]).attempts)
    {
      var stratum := CrackStratum(target, charset, done + 1, workers);
      if stratum.Failure? {
        return Failure(stratum.error);
      }
      var o := stratum.value;
      FoldStep(es, done, total, o);
      total := total + o.attempts;
      if Truthy(o.guess) {
        return Success(Outcome(o.guess, total));
      }
      done := done + 1;
    }
    assert es[done..] == [];
    return Success(Outcome(None, total));
  }

  /** The whole search as the command-line entry point runs it: a target t over
      its own charset, lengths 1..|t|. A word over the charset is found after
      the m + ... + m^(|t|-1) shorter candidates plus its rank plus one;
      anything else exhausts all m + ... + m^|t| candidates. */
  lemma SearchOwnCharset(t: string)
    ensures var cs := CanonicalCharset(t);
      Aggregate(Strata(cs, |t|, t)) ==
        if t != [] && Over(cs, t) then Outcome(Some(t), SumPow(|cs|, |t| - 1) + Rank(cs, t) + 1)
        else Outcome(None, SumPow(|cs|, |t|))
  {
    var cs := CanonicalCharset(t);
    CanonicalCharsetDistinct(t);
    StrataSpace(cs, |t|, t);
    EvaluateSpace(cs, |t|, t);
  }

  /** The `__main__` block: the line read is stripped, the charset detected,
      and every length up to the target's own searched. The target is found
      iff it is non-empty printable ASCII; a target with no printable
      character at all makes the first stratum fail. */
  method CrackTarget(line: string, workers: nat) returns (r: Result<Outcome>)
    requires workers > 0
    ensures var t := Strip(line); var cs := CanonicalCharset(t);
      && (r.Failure? <==> t != [] && forall k :: 0 <= k < |t| ==> !Printable(t[k]))
      && (r.Success? ==>
            r.value == (if t != [] && Over(cs, t) then Outcome(Some(t), SumPow(|cs|, |t| - 1) + Rank(cs, t) + 1)
                        else Outcome(None, SumPow(|cs|, |t|))))
  {
    var target := Strip(line);
    var charset := CanonicalCharset(target);
    CanonicalCharsetEmpty(target);
    SearchOwnCharset(target);
    r := ParallelCrack(target, charset, |target|, workers);
  }
}
