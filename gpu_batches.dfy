/** What the two CuPy crackers (password_cracker_GPU.py and gpu_cracker.py)
    share: the batch of guesses built column by column from a range of
    indices, and the search of one stratum in windows of B indices, where
    a hit is reported only at the end of the window that holds it. */
module GpuBatches {
  import opened Wrappers
  import opened Arith
  import opened Keyspace
  import opened Search
  import opened Partition

  /** i with its last e base-m digits dropped. */
  function Shifted(i: nat, m: nat, e: nat): nat
    requires m > 0
  {
    i / Pow(m, e)
  }

  /** Base-m digit e of i, counted from the least significant. */
  function Digit(i: nat, m: nat, e: nat): (d: nat)
    requires m > 0
    ensures d < m
  {
    Shifted(i, m, e) % m
  }

  /** Dividing once more by m drops one more digit. */
  lemma ShiftedStep(i: nat, m: nat, e: nat)
    requires m > 0
    ensures Shifted(i, m, e) / m == Shifted(i, m, e + 1)
    ensures Shifted(i, m, e) % m == Digit(i, m, e)
  {
    PowPositive(m, e);
    DivDiv(i, Pow(m, e), m);
  }

  /** The digit matrix of `int_to_str_batch`: a size-by-length matrix filled
      from the last column to the first while the index vector
      start..start+size-1 is divided by m in place. Column p of row k holds
      digit length-1-p of start + k. */
  method DigitMatrix(start: nat, size: nat, length: nat, m: nat) returns (charsIdx: array2<nat>)
    requires length > 0 ==> m > 0
    ensures fresh(charsIdx)
    ensures charsIdx.Length0 == size && charsIdx.Length1 == length
    ensures forall k, p :: 0 <= k < size && 0 <= p < length ==>
      m > 0 && charsIdx[k, p] == Digit(start + k, m, length - 1 - p)
  {
    var indices := new nat[size](k => start + k);
    charsIdx := new nat[size, length];
    var pos := length;
    while pos > 0
      invariant 0 <= pos <= length
      invariant pos < length ==> m > 0
      invariant m > 0 ==> forall k :: 0 <= k < size ==> indices[k] == Shifted(start + k, m, length - pos)
      invariant forall k, p :: 0 <= k < size && pos <= p < length ==>
        m > 0 && charsIdx[k, p] == Digit(start + k, m, length - 1 - p)
    {
      pos := pos - 1;
      var k := 0;
      while k < size
        invariant 0 <= k <= size
        invariant forall j :: 0 <= j < k ==> indices[j] == Shifted(start + j, m, length - pos)
        invariant forall j :: k <= j < size ==> indices[j] == Shifted(start + j, m, length - 1 - pos)
        invariant forall j, p :: 0 <= j < size && pos < p < length ==> charsIdx[j, p] == Digit(start + j, m, length - 1 - p)
        invariant forall j :: 0 <= j < k ==> charsIdx[j, pos] == Digit(start + j, m, length - 1 - pos)
      {
        ShiftedStep(start + k, m, length - 1 - pos);
        charsIdx[k, pos] := indices[k] % m;
        indices[k] := indices[k] / m;
        k := k + 1;
      }
    }
  }

  /** `charset_gpu[chars_idx]`: every digit replaced by its symbol. */
  function Gather(charsIdx: array2<nat>, charset: string): (chars: seq<string>)
    reads charsIdx
    requires forall k, p :: 0 <= k < charsIdx.Length0 && 0 <= p < charsIdx.Length1 ==> charsIdx[k, p] < |charset|
    ensures |chars| == charsIdx.Length0
    ensures forall k :: 0 <= k < |chars| ==> |chars[k]| == charsIdx.Length1
    ensures forall k, p :: 0 <= k < |chars| && 0 <= p < charsIdx.Length1 ==> chars[k][p] == charset[charsIdx[k, p]]
  {
    seq(charsIdx.Length0,
        k requires 0 <= k < charsIdx.Length0 && forall p :: 0 <= p < charsIdx.Length1 ==> charsIdx[k, p] < |charset|
          reads charsIdx =>
        seq(charsIdx.Length1,
            p requires 0 <= p < charsIdx.Length1 && charsIdx[k, p] < |charset| reads charsIdx => charset[charsIdx[k, p]]))
  }

  /** `int_to_str_batch`: row k of the batch is the big-endian decoding of
      start + k over `length` symbols, the last one least significant. */
  method IntToStrBatch(start: nat, size: nat, length: nat, charset: string) returns (chars: seq<string>)
    requires length > 0 ==> |charset| > 0
    ensures |chars| == size
    ensures forall k :: 0 <= k < size ==> chars[k] == DecodeBig(charset, start + k, length)
  {
    var charsIdx := DigitMatrix(start, size, length, |charset|);
    chars := Gather(charsIdx, charset);
    forall k | 0 <= k < size
      ensures chars[k] == DecodeBig(charset, start + k, length)
    {
      forall p | 0 <= p < length
        ensures chars[k][p] == DecodeBig(charset, start + k, length)[p]
      {
        DigitBig(charset, start + k, length, p);
      }
    }
  }

  /** One window of the search: the rows decoded from start onwards,
      compared one by one with the target; the first row that matches. */
  method CheckWindow(target: string, charset: string, length: nat, start: nat, size: nat)
    returns (hit: Option<nat>)
    requires 0 < size && start + size <= Pow(|charset|, length)
    ensures hit == FirstIndex(Product(charset, length)[start..start + size], target)
  {
    if length > 0 && |charset| == 0 {
      PowZeroBase(length);
      assert false;
    }
    var guesses := IntToStrBatch(start, size, length, charset);
    RowsAreWindow(charset, length, start, guesses);
    ghost var window := Product(charset, length)[start..start + size];
    assert |guesses| == size && guesses == window;
    hit := FirstIndex(guesses, target);
  }

  /** The end of the window of b indices that holds index i: the index
      counter after that window, when it is a whole one. */
  function WindowEnd(i: nat, b: nat): (e: nat)
    requires b > 0
    ensures i < e <= i + b
    decreases i
  {
    if i < b then b else b + WindowEnd(i - b, b)
  }

  /** s is where a window of b indices starts: 0, b, 2b, ... */
  predicate Boundary(s: nat, b: nat)
    requires b > 0
    decreases s
  {
    s == 0 || (s >= b && Boundary(s - b, b))
  }

  /** Every index of the window starting at s belongs to the window ending
      at s + b. */
  lemma {:induction false} BoundaryWindowEnd(s: nat, b: nat, i: nat)
    requires b > 0 && Boundary(s, b) && i < b
    ensures WindowEnd(s + i, b) == s + b
    decreases s
  {
    if s > 0 {
      BoundaryWindowEnd(s - b, b, i);
    }
  }

  /** A sequence of candidates searched in windows of b: the counter grows
      by whole windows, so a hit is counted up to the end of its window (or
      of the sequence); a miss counts every candidate. A step below one
      makes `range` empty and nothing is searched. */
  function BatchScan(ps: seq<string>, t: string, b: int): (o: Outcome)
    ensures b <= 0 ==> o == Outcome(None, 0)
    ensures b > 0 ==> o.guess == Evaluate(ps, t).guess
    ensures b > 0 && o.guess.Some? ==>
      Evaluate(ps, t).attempts <= o.attempts < Evaluate(ps, t).attempts + b && o.attempts <= |ps|
    ensures b > 0 && o.guess.None? ==> o.attempts == |ps|
  {
    if b <= 0 then Outcome(None, 0)
    else
      var e := Evaluate(ps, t);
      if e.guess.Some? then Outcome(e.guess, Min(WindowEnd(e.attempts - 1, b), |ps|))
      else e
  }

  /** One stratum, every string of length l over cs in lexicographic order,
      searched in windows of b. */
  function BatchStratum(cs: string, l: nat, t: string, b: int): Outcome
  {
    BatchScan(Product(cs, l), t, b)
  }

  /** A batch decoded from start s is the window of the stratum at s. */
  lemma RowsAreWindow(cs: string, l: nat, s: nat, rows: seq<string>)
    requires s + |rows| <= Pow(|cs|, l)
    requires forall k :: 0 <= k < |rows| ==> (l > 0 ==> |cs| > 0) && rows[k] == DecodeBig(cs, s + k, l)
    ensures rows == Product(cs, l)[s..s + |rows|]
  {
    forall k | 0 <= k < |rows|
      ensures rows[k] == Product(cs, l)[s + k]
    {
      ProductAt(cs, l, s + k);
    }
  }

  /** Any index of a window starting at a boundary s is counted up to that
      window's end, capped at the end of the sequence. */
  lemma WindowEndIn(s: nat, b: nat, i: nat, z: nat, total: nat)
    requires b > 0 && Boundary(s, b) && s < total && z == Min(b, total - s) && i < z
    ensures Min(WindowEnd(s + i, b), total) == s + z
  {
    BoundaryWindowEnd(s, b, i);
  }

  /** The window [s, s + z), s a boundary, holds the first occurrence
      of t at its row i while ps[..s] does not hold t: the search reports t
      with the counter at the end of that window. */
  lemma WindowHit(ps: seq<string>, t: string, b: nat, s: nat, z: nat, i: nat)
    requires b > 0 && Boundary(s, b) && s < |ps| && z == Min(b, |ps| - s)
    requires t !in ps[..s]
    requires FirstIndex(ps[s..s + z], t) == Some(i)
    ensures BatchScan(ps, t, b) == Outcome(Some(t), s + z)
  {
    forall j | 0 <= j < s + i
      ensures ps[j] != t
    {
      if j < s {
        assert ps[j] in ps[..s];
      } else {
        assert ps[j] == ps[s..s + z][j - s];
      }
    }
    EvaluateFound(ps, t, s + i);
    WindowEndIn(s, b, i, z, |ps|);
  }

  /** A window without t extends the prefix known not to hold t. */
  lemma WindowMiss(ps: seq<string>, t: string, s: nat, z: nat)
    requires s + z <= |ps|
    requires t !in ps[..s]
    requires t !in ps[s..s + z]
    ensures t !in ps[..s + z]
  {
    assert ps[..s + z] == ps[..s] + ps[s..s + z];
  }

  /** The search of a stratum in closed form: a word of that length over cs
      (with no repeated symbol) is reported at the end of the window holding
      its rank; anything else after the whole stratum. */
  lemma BatchStratumClosed(cs: string, l: nat, t: string, b: nat)
    requires Distinct(cs) && b > 0
    ensures BatchStratum(cs, l, t, b) ==
      if |t| == l && Over(cs, t) then Outcome(Some(t), Min(WindowEnd(Rank(cs, t), b), Pow(|cs|, l)))
      else Outcome(None, Pow(|cs|, l))
  {
    EvaluateProduct(cs, l, t);
  }
}
