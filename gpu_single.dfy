/** gpu_cracker.py: one stratum only, the one of the target's own length,
    searched in windows of 500 000 indices; the counter is the end of the
    last window searched, and a match is announced only when it is truthy. */
module GpuSingle {
  import opened Wrappers
  import opened Arith
  import opened Keyspace
  import opened Search
  import opened Partition
  import opened Alphabet
  import opened GpuBatches

  /** `BATCH_SIZE`. */
  const BatchSize: nat := 500_000

  /** `batch_brute_force`: windows [s, s + min(B, m^L - s)) for s = 0, B,
      2B, ...; each is decoded, compared row by row with the target (the
      shapes agree, so the comparison is exact), the counter grows by the
      window's size, and the first matching row ends the loop. */
  method BatchBruteForce(target: string, charset: string) returns (found: Option<string>, attempts: nat)
    ensures Outcome(found, attempts) == BatchStratum(charset, |target|, target, BatchSize)
  {
    var length := |target|;
    var total := Pow(|charset|, length);
    ghost var ps := Product(charset, length);
    assert |ps| == total;
    found := None;
    attempts := 0;
    var batchStart := 0;
    while batchStart < total
      invariant Boundary(batchStart, BatchSize)
      invariant attempts == batchStart <= total
      invariant target !in ps[..attempts]
      decreases total - batchStart
    {
      var size := Min(BatchSize, total - batchStart);
      var hit := CheckWindow(target, charset, length, batchStart, size);
      attempts := attempts + size;
      if hit.Some? {
        found := Some(target);
        WindowHit(ps, target, BatchSize, batchStart, size, hit.value);
        return;
      }
      WindowMiss(ps, target, batchStart, size);
      if size < BatchSize {
        assert attempts == total;
        assert ps[..attempts] == ps;
        return;
      }
      batchStart := batchStart + BatchSize;
    }
    assert ps[..attempts] == ps;
  }

  /** The script: the stripped input, its canonical charset, then the
      search. A printable target is found at the end of the window holding
      its rank; the empty target is matched by the empty row, which is falsy
      and so reported as not found; any other target exhausts the stratum. */
  method Script(line: string) returns (found: Option<string>, attempts: nat)
    ensures var t := Strip(line); var cs := CanonicalCharset(t);
      && (Truthy(found) <==> t != [] && forall k :: 0 <= k < |t| ==> Printable(t[k]))
      && (t == [] ==> found == Some([]) && attempts == 1)
      && (t != [] && Over(cs, t) ==>
            found == Some(t) && attempts == Min(WindowEnd(Rank(cs, t), BatchSize), Pow(|cs|, |t|)))
      && (t != [] && !Over(cs, t) ==> found == None && attempts == Pow(|cs|, |t|))
  {
    var target := Strip(line);
    var charset := CanonicalCharset(target);
    CanonicalCharsetDistinct(target);
    CanonicalCharsetCovers(target);
    BatchStratumClosed(charset, |target|, target, BatchSize);
    found, attempts := BatchBruteForce(target, charset);
  }
}
