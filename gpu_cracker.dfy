/** password_cracker_GPU.py: strata 1..L, each searched in windows whose
    size is the user's batch size or, when that is falsy, one derived from
    the free GPU memory; the counter grows by whole windows; an allocation
    that does not fit ends the run with nothing found; a found password is
    logged under the first free file name. */
module GpuCracker {
  import opened Wrappers
  import opened Arith
  import opened Keyspace
  import opened Search
  import opened Partition
  import opened Alphabet
  import opened GpuBatches

  /** The default `max_batch` of `get_dynamic_batch_size`. */
  const MaxBatch: nat := 2_000_000

  /** The batch size used when the memory query raises. */
  const FallbackBatch: nat := 500_000

  /** `int(free_mem * 0.85 // (length * 2))` in exact arithmetic: 85% of the
      free bytes over two bytes per guessed character. */
  function MaxGuesses(freeMem: nat, length: nat): nat
    requires length > 0
  {
    freeMem * 85 / 200 / length
  }

  /** `get_dynamic_batch_size`: the guesses that fit clamped to
      [1, MaxBatch]; when the memory query raises (no device, or length 0
      dividing by zero) the fallback size. */
  function DynamicBatchSize(length: nat, freeMem: Option<nat>): (b: nat)
    ensures 1 <= b <= MaxBatch
    ensures freeMem.None? || length == 0 ==> b == FallbackBatch
    ensures freeMem.Some? && length > 0 ==>
      var g := MaxGuesses(freeMem.value, length);
      && (1 <= g <= MaxBatch ==> b == g)
      && (g < 1 ==> b == 1)
      && (g > MaxBatch ==> b == MaxBatch)
  {
    if freeMem.None? || length == 0 then FallbackBatch
    else
      var g := MaxGuesses(freeMem.value, length);
      if g < 1 then 1 else if g > MaxBatch then MaxBatch else g
  }

  /** Unless it is clamped up to one, a dynamic batch of guesses, at two
      bytes per character, fits in the free memory reported. */
  lemma DynamicBatchFits(length: nat, freeMem: nat)
    requires length > 0 && MaxGuesses(freeMem, length) >= 1
    ensures DynamicBatchSize(length, Some(freeMem)) * length * 2 <= freeMem
  {
    var b := DynamicBatchSize(length, Some(freeMem));
    var g := MaxGuesses(freeMem, length);
    var h := freeMem * 85 / 200;
    DivModSplit(freeMem * 85, 200);
    DivModSplit(h, length);
    MulMono(b, g, length);
    MulMono(b * length, h, 200);
  }

  /** More free memory never gives a smaller dynamic batch. */
  lemma DynamicBatchMonotone(length: nat, f1: nat, f2: nat)
    requires f1 <= f2
    ensures DynamicBatchSize(length, Some(f1)) <= DynamicBatchSize(length, Some(f2))
  {
    if length > 0 {
      MulMono(f1, f2, 85);
      DivMono(f1 * 85, f2 * 85, 200);
      DivMono(f1 * 85 / 200, f2 * 85 / 200, length);
    }
  }

  /** `batch_size or get_dynamic_batch_size(length, len(charset))`: None and
      0 are falsy and select the dynamic size; any other value, even a
      negative one, is used as given. */
  function BatchFor(batchSize: Option<int>, length: nat, freeMem: Option<nat>): (b: int)
    ensures b != 0
    ensures b < 0 ==> batchSize == Some(b)
    ensures batchSize.Some? && batchSize.value != 0 ==> b == batchSize.value
    ensures batchSize.None? || batchSize.value == 0 ==> 1 <= b <= MaxBatch
  {
    if batchSize.Some? && batchSize.value != 0 then batchSize.value
    else DynamicBatchSize(length, freeMem)
  }

  // The comparison `cp.all(guesses_gpu == target_gpu[None, :], axis=1)`

  /** The comparison as written, for one row against the target under
      NumPy broadcasting: equal shapes compare position by position; a row
      of one symbol is stretched to the target's length; a target of one
      symbol is stretched to the row's length; any other pair of lengths
      raises. */
  function BroadcastMatch(row: string, t: string): (r: Result<bool>)
    ensures r.Failure? <==> |row| != |t| && |row| != 1 && |t| != 1
    ensures |row| == |t| ==> r == Success(row == t)
  {
    if |row| == |t| then Success(row == t)
    else if |row| == 1 then Success(forall j :: 0 <= j < |t| ==> t[j] == row[0])
    else if |t| == 1 then Success(forall j :: 0 <= j < |row| ==> row[j] == t[0])
    else Failure("operands could not be broadcast together")
  }

  /** As written, the one-symbol row c matches every target of two or more
      copies of c, although the two differ: the first stratum reports c. */
  lemma BroadcastMatchesRepeats(c: char, t: string)
    requires |t| >= 2 && forall j :: 0 <= j < |t| ==> t[j] == c
    ensures BroadcastMatch([c], t) == Success(true) && [c] != t
  {
  }

  /** As written, a target of three or more symbols makes the comparison at
      the second stratum raise. */
  lemma BroadcastRaises(row: string, t: string)
    requires |row| == 2 && |t| >= 3
    ensures BroadcastMatch(row, t).Failure?
  {
  }

  /** The two discrepancies on concrete inputs: "a" matches the target
      "aa", and "ab" cannot be compared with "abc". */
  lemma BroadcastExamples()
    ensures BroadcastMatch("a", "aa") == Success(true)
    ensures BroadcastMatch("ab", "abc").Failure?
  {
    BroadcastMatchesRepeats('a', "aa");
  }

  // The search, with an exact comparison

  /** Bytes of GPU memory a window of z guesses of length l takes (one byte
      per character). */
  function BatchBytes(z: nat, l: nat): nat
  {
    z * l
  }

  /** The first window of a stratum is its largest; the stratum runs out of
      memory iff that one does not fit in `capacity` bytes. */
  predicate Fits(cs: string, l: nat, b: int, capacity: nat)
  {
    b <= 0 || Pow(|cs|, l) == 0 || BatchBytes(Min(b, Pow(|cs|, l)), l) <= capacity
  }

  /** One stratum: out of memory at its first window, or searched in
      windows of b. */
  function Run(cs: string, l: nat, t: string, b: int, capacity: nat): Result<Outcome>
  {
    if Fits(cs, l, b, capacity) then Success(BatchStratum(cs, l, t, b))
    else Failure("Out of GPU memory")
  }

  /** Strata 1..L, each with the batch size it would use. */
  function Runs(cs: string, t: string, L: nat, batchSize: Option<int>, freeMem: Option<nat>, capacity: nat)
    : (rs: seq<Result<Outcome>>)
    ensures |rs| == L
  {
    seq(L, i requires 0 <= i < L => Run(cs, i + 1, t, BatchFor(batchSize, i + 1, freeMem), capacity))
  }

  /** The strata's reports folded in order: an allocation failure ends the
      run; a match ends it with the attempts counted so far; otherwise the
      attempts add up. */
  function FoldRuns(rs: seq<Result<Outcome>>, from: nat): Result<Outcome>
    decreases |rs| - from
  {
    if from >= |rs| then Success(Outcome(None, 0))
    else if rs[from].Failure? || rs[from].value.guess.Some? then rs[from]
    else AddAttempts(rs[from].value.attempts, FoldRuns(rs, from + 1))
  }

  /** Earlier strata's attempts added to what the rest of the run reports. */
  function AddAttempts(total: nat, r: Result<Outcome>): Result<Outcome>
  {
    if r.Failure? then r else Success(Outcome(r.value.guess, total + r.value.attempts))
  }

  /** The inner loop of `gpu_brute_force_crack` for one stratum: windows of
      b, each allocated, decoded and compared exactly with the target; the
      counter grows by the window's size and the first matching row ends the
      stratum. */
  method SearchStratum(target: string, charset: string, length: nat, b: int, capacity: nat)
    returns (r: Result<Outcome>)
    requires length >= 1 && b != 0
    ensures r.Failure? <==> !Fits(charset, length, b, capacity)
    ensures r.Failure? ==> r.error == "Out of GPU memory"
    ensures r.Success? ==> r.value == BatchStratum(charset, length, target, b)
    ensures r.Success? && r.value.guess.Some? ==> r.value.guess.value == target
  {
    var total := Pow(|charset|, length);
    if b < 0 {
      return Success(Outcome(None, 0));
    }
    ghost var ps := Product(charset, length);
    ghost var want := BatchScan(ps, target, b);
    assert |ps| == total;
    var attempts := 0;
    var batchStart := 0;
    while batchStart < total
      invariant Boundary(batchStart, b)
      invariant attempts == batchStart <= total
      invariant batchStart > 0 ==> Fits(charset, length, b, capacity)
      invariant target !in ps[..attempts]
      decreases total - batchStart
    {
      var size := Min(b, total - batchStart);
      if batchStart > 0 {
        MulMono(size, Min(b, total), length);
      }
      if BatchBytes(size, length) > capacity {
        assert batchStart == 0 && !Fits(charset, length, b, capacity);
        return Failure("Out of GPU memory");
      }
      assert Fits(charset, length, b, capacity);
      var hit := CheckWindow(target, charset, length, batchStart, size);
      attempts := attempts + size;
      if hit.Some? {
        WindowHit(ps, target, b, batchStart, size, hit.value);
        assert want == Outcome(Some(target), attempts);
        return Success(Outcome(Some(target), attempts));
      }
      WindowMiss(ps, target, batchStart, size);
      if size < b {
        assert ps[..attempts] == ps;
        assert want == Outcome(None, attempts);
        return Success(Outcome(None, attempts));
      }
      batchStart := batchStart + b;
    }
    assert ps[..attempts] == ps;
    assert want == Outcome(None, attempts);
    return Success(Outcome(None, attempts));
  }

  /** Adding the attempts of two stretches one after the other. */
  lemma AddAttemptsTwice(total: nat, a: nat, r: Result<Outcome>)
    ensures AddAttempts(total, AddAttempts(a, r)) == AddAttempts(total + a, r)
  {
  }

  /** rs holds, at position l - 1, the report of stratum l searched with
      its batch size. */
  ghost predicate Reports(rs: seq<Result<Outcome>>, cs: string, t: string, batchSize: Option<int>,
                          freeMem: Option<nat>, capacity: nat)
  {
    forall l {:trigger Run(cs, l, t, BatchFor(batchSize, l, freeMem), capacity)} :: 1 <= l <= |rs| ==>
      rs[l - 1] == Run(cs, l, t, BatchFor(batchSize, l, freeMem), capacity)
  }

  /** The body of the strata loop: the stratum's batch size, then its
      search. */
  method CrackLength(target: string, charset: string, length: nat, batchSize: Option<int>,
                     freeMem: Option<nat>, capacity: nat, ghost rs: seq<Result<Outcome>>)
    returns (run: Result<Outcome>)
    requires 1 <= length <= |rs|
    requires Reports(rs, charset, target, batchSize, freeMem, capacity)
    ensures run == rs[length - 1]
  {
    var b := BatchFor(batchSize, length, freeMem);
    run := SearchStratum(target, charset, length, b, capacity);
    assert rs[length - 1] == Run(charset, length, target, b, capacity);
  }

  /** Folding one more report into the attempts counted so far. */
  lemma FoldRunsStep(rs: seq<Result<Outcome>>, i: nat, total: nat)
    requires i < |rs|
    ensures AddAttempts(total, FoldRuns(rs, i)) ==
      if rs[i].Failure? || rs[i].value.guess.Some? then AddAttempts(total, rs[i])
      else AddAttempts(total + rs[i].value.attempts, FoldRuns(rs, i + 1))
  {
    if rs[i].Success? && rs[i].value.guess.None? {
      AddAttemptsTwice(total, rs[i].value.attempts, FoldRuns(rs, i + 1));
    }
  }

  /** The loop of `gpu_brute_force_crack` over strata 1..maxLength against
      their reports rs: the attempts of all windows searched add up; the
      first match or the first allocation failure ends the run. */
  method CrackStrata(target: string, charset: string, maxLength: nat, batchSize: Option<int>,
                     freeMem: Option<nat>, capacity: nat, ghost rs: seq<Result<Outcome>>)
    returns (r: Result<Outcome>)
    requires |rs| == maxLength
    requires Reports(rs, charset, target, batchSize, freeMem, capacity)
    ensures r == FoldRuns(rs, 0)
  {
    var total: nat := 0;
    var done: nat := 0;
    while done < maxLength
      invariant done <= maxLength
      invariant FoldRuns(rs, 0) == AddAttempts(total, FoldRuns(rs, done))
    {
      var run := CrackLength(target, charset, done + 1, batchSize, freeMem, capacity, rs);
      FoldRunsStep(rs, done, total);
      if run.Failure? {
        return run;
      }
      if run.value.guess.Some? {
        return Success(Outcome(run.value.guess, total + run.value.attempts));
      }
      total := total + run.value.attempts;
      done := done + 1;
    }
    return Success(Outcome(None, total));
  }

  /** `gpu_brute_force_crack`: strata 1..maxLength, each with its batch
      size. */
  method GpuBruteForceCrack(target: string, charset: string, maxLength: nat, batchSize: Option<int>,
                            freeMem: Option<nat>, capacity: nat)
    returns (r: Result<Outcome>)
    ensures r == FoldRuns(Runs(charset, target, maxLength, batchSize, freeMem, capacity), 0)
  {
    r := CrackStrata(target, charset, maxLength, batchSize, freeMem, capacity,
                     Runs(charset, target, maxLength, batchSize, freeMem, capacity));
  }

  // The run in closed form

  /** Every stratum after the first i fits in memory. */
  ghost predicate AllFit(cs: string, L: nat, batchSize: Option<int>, freeMem: Option<nat>, capacity: nat, i: nat)
  {
    forall l :: i < l <= L ==> Fits(cs, l, BatchFor(batchSize, l, freeMem), capacity)
  }

  /** The whole search of the target's strata when nothing runs out of
      memory: a word over cs is found after every shorter candidate plus the
      windows of its own stratum up to the one holding its rank; anything
      else after the whole keyspace. */
  function Closed(cs: string, t: string, b: nat): Outcome
    requires b > 0
  {
    if t != [] && Over(cs, t) then Outcome(Some(t), SumPow(|cs|, |t| - 1) + Min(WindowEnd(Rank(cs, t), b), Pow(|cs|, |t|)))
    else Outcome(None, SumPow(|cs|, |t|))
  }

  /** Folding the reports of strata i + 1.. after the SumPow(m, i) attempts
      of the first i: every stratum but the last either ran out of memory
      or searched its m^l candidates in vain, and the last either ran out
      of memory or reported `last`. The first stratum that does not fit ends
      the run; otherwise the last report comes after every shorter
      candidate. */
  lemma {:induction false} FoldStrata(rs: seq<Result<Outcome>>, fits: seq<bool>, m: nat, last: Outcome, e: string, i: nat)
    requires |fits| == |rs| && i < |rs|
    requires forall k :: i <= k < |rs| - 1 ==>
      rs[k] == if fits[k] then Success(Outcome(None, Pow(m, k + 1))) else Failure(e)
    requires rs[|rs| - 1] == if fits[|rs| - 1] then Success(last) else Failure(e)
    ensures AddAttempts(SumPow(m, i), FoldRuns(rs, i)) ==
      if false in fits[i..] then Failure(e) else Success(Outcome(last.guess, SumPow(m, |rs| - 1) + last.attempts))
    decreases |rs| - i
  {
    assert fits[i..] == [fits[i]] + fits[i + 1..];
    if !fits[i] {
    } else if i + 1 < |rs| {
      FoldStrata(rs, fits, m, last, e, i + 1);
      AddAttemptsTwice(SumPow(m, i), Pow(m, i + 1), FoldRuns(rs, i + 1));
    } else {
      assert FoldRuns(rs, i + 1) == Success(Outcome(None, 0));
    }
  }

  /** Stratum l's report in closed form, for a charset with no repeated
      symbol and a positive batch size: out of memory, or the target found
      at the end of the window holding its rank, or the whole stratum
      counted. */
  function StratumReport(cs: string, t: string, l: nat, b: nat, capacity: nat): Result<Outcome>
    requires b > 0
  {
    if !Fits(cs, l, b, capacity) then Failure("Out of GPU memory")
    else if |t| == l && Over(cs, t) then Success(Outcome(Some(t), Min(WindowEnd(Rank(cs, t), b), Pow(|cs|, l))))
    else Success(Outcome(None, Pow(|cs|, l)))
  }

  /** The search of one stratum in closed form. */
  lemma RunClosed(cs: string, l: nat, t: string, b: nat, capacity: nat)
    requires Distinct(cs) && b > 0
    ensures Run(cs, l, t, b, capacity) == StratumReport(cs, t, l, b, capacity)
  {
    BatchStratumClosed(cs, l, t, b);
  }

  /** rs holds the closed-form reports of strata 1..|t|. */
  ghost predicate ClosedReports(rs: seq<Result<Outcome>>, cs: string, t: string, batchSize: Option<int>,
                                freeMem: Option<nat>, capacity: nat)
  {
    |rs| == |t| &&
    forall l :: 1 <= l <= |t| ==>
      BatchFor(batchSize, l, freeMem) > 0 &&
      rs[l - 1] == StratumReport(cs, t, l, BatchFor(batchSize, l, freeMem), capacity)
  }

  /** With a charset without repeats and a batch size that is not negative,
      the run's reports are the closed-form ones. */
  lemma RunsAreClosed(cs: string, t: string, batchSize: Option<int>, freeMem: Option<nat>, capacity: nat)
    requires Distinct(cs)
    requires batchSize.None? || batchSize.value >= 0
    ensures ClosedReports(Runs(cs, t, |t|, batchSize, freeMem, capacity), cs, t, batchSize, freeMem, capacity)
  {
    forall l | 1 <= l <= |t|
      ensures Runs(cs, t, |t|, batchSize, freeMem, capacity)[l - 1]
        == StratumReport(cs, t, l, BatchFor(batchSize, l, freeMem), capacity)
    {
      RunClosed(cs, l, t, BatchFor(batchSize, l, freeMem), capacity);
    }
  }

  /** Whether each stratum 1..L fits in memory. */
  ghost function FitsSeq(cs: string, L: nat, batchSize: Option<int>, freeMem: Option<nat>, capacity: nat): seq<bool>
  {
    seq(L, k requires 0 <= k < L => Fits(cs, k + 1, BatchFor(batchSize, k + 1, freeMem), capacity))
  }

  /** Some stratum does not fit iff a false appears among the flags. */
  lemma AllFitFlags(cs: string, L: nat, batchSize: Option<int>, freeMem: Option<nat>, capacity: nat)
    ensures false in FitsSeq(cs, L, batchSize, freeMem, capacity) <==> !AllFit(cs, L, batchSize, freeMem, capacity, 0)
  {
    var fits := FitsSeq(cs, L, batchSize, freeMem, capacity);
    if false in fits {
      var k :| 0 <= k < L && !fits[k];
      assert !Fits(cs, k + 1, BatchFor(batchSize, k + 1, freeMem), capacity);
    } else {
      forall l | 0 < l <= L
        ensures Fits(cs, l, BatchFor(batchSize, l, freeMem), capacity)
      {
        assert fits[l - 1] in fits;
      }
    }
  }

  /** The report of the last stratum, when it fits. */
  function LastReport(cs: string, t: string, b: nat): Outcome
    requires b > 0
  {
    if Over(cs, t) then Outcome(Some(t), Min(WindowEnd(Rank(cs, t), b), Pow(|cs|, |t|)))
    else Outcome(None, Pow(|cs|, |t|))
  }

  /** Closed-form reports have the shape the fold over strata expects. */
  lemma ClosedReportsShape(rs: seq<Result<Outcome>>, cs: string, t: string, batchSize: Option<int>,
                           freeMem: Option<nat>, capacity: nat)
    requires ClosedReports(rs, cs, t, batchSize, freeMem, capacity) && t != []
    ensures var fits := FitsSeq(cs, |t|, batchSize, freeMem, capacity);
      && |fits| == |rs|
      && (forall k :: 0 <= k < |rs| - 1 ==>
            rs[k] == if fits[k] then Success(Outcome(None, Pow(|cs|, k + 1))) else Failure("Out of GPU memory"))
      && BatchFor(batchSize, |t|, freeMem) > 0
      && rs[|rs| - 1] == if fits[|rs| - 1] then Success(LastReport(cs, t, BatchFor(batchSize, |t|, freeMem)))
                         else Failure("Out of GPU memory")
  {
    var L := |t|;
    assert BatchFor(batchSize, L, freeMem) > 0 && rs[L - 1] == StratumReport(cs, t, L, BatchFor(batchSize, L, freeMem), capacity);
    forall k | 0 <= k < L - 1
      ensures rs[k] == StratumReport(cs, t, k + 1, BatchFor(batchSize, k + 1, freeMem), capacity)
    {
      var l := k + 1;
      assert rs[l - 1] == StratumReport(cs, t, l, BatchFor(batchSize, l, freeMem), capacity);
    }
  }

  /** Closed-form reports fold to the closed form of the whole search, or
      to the allocation failure of the first stratum that does not fit. */
  lemma FoldClosedReports(rs: seq<Result<Outcome>>, cs: string, t: string, batchSize: Option<int>,
                          freeMem: Option<nat>, capacity: nat)
    requires ClosedReports(rs, cs, t, batchSize, freeMem, capacity)
    requires batchSize.None? || batchSize.value >= 0
    ensures var r := FoldRuns(rs, 0);
      && (r.Failure? <==> !AllFit(cs, |t|, batchSize, freeMem, capacity, 0))
      && (r.Success? ==> r.value == Closed(cs, t, BatchFor(batchSize, |t|, freeMem)))
  {
    AllFitFlags(cs, |t|, batchSize, freeMem, capacity);
    if t != [] {
      var fits := FitsSeq(cs, |t|, batchSize, freeMem, capacity);
      ClosedReportsShape(rs, cs, t, batchSize, freeMem, capacity);
      FoldStrata(rs, fits, |cs|, LastReport(cs, t, BatchFor(batchSize, |t|, freeMem)), "Out of GPU memory", 0);
      assert fits[0..] == fits;
    }
  }

  /** The run of strata 1..|t| with a batch size that is not negative, when
      cs has no repeated symbol: out of memory iff some stratum does not
      fit, and otherwise the closed form. */
  lemma RunsClosed(cs: string, t: string, batchSize: Option<int>, freeMem: Option<nat>, capacity: nat)
    requires Distinct(cs)
    requires batchSize.None? || batchSize.value >= 0
    ensures var r := FoldRuns(Runs(cs, t, |t|, batchSize, freeMem, capacity), 0);
      && (r.Failure? <==> !AllFit(cs, |t|, batchSize, freeMem, capacity, 0))
      && (r.Success? ==> r.value == Closed(cs, t, BatchFor(batchSize, |t|, freeMem)))
  {
    RunsAreClosed(cs, t, batchSize, freeMem, capacity);
    FoldClosedReports(Runs(cs, t, |t|, batchSize, freeMem, capacity), cs, t, batchSize, freeMem, capacity);
  }

  /** Reports that all say "nothing searched" fold to nothing searched. */
  lemma {:induction false} FoldNothing(rs: seq<Result<Outcome>>, i: nat)
    requires forall k :: i <= k < |rs| ==> rs[k] == Success(Outcome(None, 0))
    ensures FoldRuns(rs, i) == Success(Outcome(None, 0))
    decreases |rs| - i
  {
    if i < |rs| {
      FoldNothing(rs, i + 1);
    }
  }

  /** A negative batch size makes every `range` empty: the run searches
      nothing and reports nothing. */
  lemma RunsNegative(cs: string, t: string, L: nat, v: int, freeMem: Option<nat>, capacity: nat)
    requires v < 0
    ensures FoldRuns(Runs(cs, t, L, Some(v), freeMem, capacity), 0) == Success(Outcome(None, 0))
  {
    FoldNothing(Runs(cs, t, L, Some(v), freeMem, capacity), 0);
  }

  /** The default of the batch-size prompt. */
  const DefaultBatch: int := 1_000_000

  /** The script's main: the stripped entry, the charset of the classes it
      touches, a batch size (the default when the entry is blank), then the
      search up to the entry's own length. A printable password is found
      after every shorter candidate plus the windows of its stratum up to
      the one holding its rank, unless some stratum does not fit in memory;
      a negative batch size searches nothing. */
  method CrackTarget(line: string, batchInput: Option<int>, freeMem: Option<nat>, capacity: nat)
    returns (r: Result<Outcome>)
    ensures var t := Strip(line); var cs := CanonicalCharset(t);
      var bs := if batchInput.Some? then batchInput.value else DefaultBatch;
      && (Over(cs, t) <==> forall k :: 0 <= k < |t| ==> Printable(t[k]))
      && (bs < 0 ==> r == Success(Outcome(None, 0)))
      && (bs >= 0 ==> (r.Failure? <==> !AllFit(cs, |t|, Some(bs), freeMem, capacity, 0)))
      && (bs >= 0 && r.Success? ==> r.value == Closed(cs, t, BatchFor(Some(bs), |t|, freeMem)))
  {
    var target := Strip(line);
    var charset := CanonicalCharset(target);
    var batchSize := if batchInput.Some? then batchInput.value else DefaultBatch;
    CanonicalCharsetDistinct(target);
    CanonicalCharsetCovers(target);
    if batchSize < 0 {
      RunsNegative(charset, target, |target|, batchSize, freeMem, capacity);
    } else {
      RunsClosed(charset, target, Some(batchSize), freeMem, capacity);
    }
    r := GpuBruteForceCrack(target, charset, |target|, Some(batchSize), freeMem, capacity);
  }
}
