/** The cracker of password_cracker.py: the same strata, chunks and fold as
    password_cracker_CPU.py, with two differences. The prefix length also
    depends on the charset size, and length-1 prefixes are the charset's own
    characters. The workers share a flag: each checks it before every prefix
    and every guess, and the one that finds the target sets it. The workers
    run one after the other here, so the flag is clear while a stratum runs
    until the match, and every worker after the match returns at once with
    nothing found and no attempts. */
module FlagCracker {
  import opened Wrappers
  import opened Arith
  import opened Keyspace
  import opened Search
  import opened Partition
  import opened Alphabet
  import CpuCracker

  /** The `Manager().Value('i', 0)` that the workers of a run share. */
  class SharedFlag {
    var value: int

    constructor ()
      ensures value == 0
    {
      value := 0;
    }
  }

  /** `worker`: stops before the next prefix or guess once the flag is set;
      otherwise every prefix followed by every suffix in `itertools.product`
      order, and the flag set exactly when the target is found. */
  method Worker(target: string, charset: string, length: nat, prefixes: seq<string>, flag: SharedFlag, ghost k: nat)
    returns (guess: Option<string>, attempts: nat)
    requires k <= length && Uniform(prefixes, k)
    modifies flag
    ensures old(flag.value) != 0 ==> guess == None && attempts == 0 && flag.value == old(flag.value)
    ensures old(flag.value) == 0 ==>
      Outcome(guess, attempts) == Evaluate(Cross(prefixes, Product(charset, length - k)), target)
    ensures old(flag.value) == 0 ==> flag.value == if guess.Some? then 1 else 0
    ensures guess.Some? ==> |guess.value| == length
  {
    ghost var ss := Product(charset, length - k);
    attempts := 0;
    var i := 0;
    while i < |prefixes|
      invariant i <= |prefixes|
      invariant flag.value == old(flag.value)
      invariant old(flag.value) != 0 ==> attempts == 0
      invariant old(flag.value) == 0 ==> target !in Cross(prefixes[..i], ss) && attempts == |Cross(prefixes[..i], ss)|
    {
      if flag.value != 0 {
        break;
      }
      var hit;
      hit, attempts := ScanFlagPrefix(target, charset, length, prefixes, i, attempts, flag, k);
      if hit {
        flag.value := 1;
        return Some(target), attempts;
      }
      i := i + 1;
    }
    if old(flag.value) == 0 {
      assert prefixes[..i] == prefixes;
    }
    return None, attempts;
  }

  /** One pass of `worker`'s outer loop while the flag is clear: prefix i
      followed by its suffixes until the target. After earlier prefixes that
      all missed, a hit is the worker's answer; a miss extends the part known
      to miss by one block. */
  method ScanFlagPrefix(target: string, charset: string, length: nat, prefixes: seq<string>, i: nat, attempts: nat,
                        flag: SharedFlag, ghost k: nat)
    returns (hit: bool, attempts': nat)
    requires k <= length && Uniform(prefixes, k) && i < |prefixes| && flag.value == 0
    requires target !in Cross(prefixes[..i], Product(charset, length - k))
    requires attempts == |Cross(prefixes[..i], Product(charset, length - k))|
    ensures hit ==> |target| == length
    ensures hit ==> Outcome(Some(target), attempts') == Evaluate(Cross(prefixes, Product(charset, length - k)), target)
    ensures !hit ==> target !in Cross(prefixes[..i + 1], Product(charset, length - k))
    ensures !hit ==> attempts' == |Cross(prefixes[..i + 1], Product(charset, length - k))|
  {
    var prefix := prefixes[i];
    var suffixLen := length - |prefix|;
    assert suffixLen == length - k;
    var combos := Product(charset, suffixLen);
    ProductUniform(charset, suffixLen);
    var count;
    hit, count := ScanCombos(target, prefix, combos, flag);
    attempts' := attempts + count;
    if hit {
      CrossHit(prefixes, combos, i, count - 1, target);
    } else {
      CrossMiss(prefixes, combos, i, target);
    }
  }

  /** The inner loop of `worker`: the suffixes after one prefix in order,
      each counted, until one completes the target. The flag is clear while
      the scan runs, as only a match sets it. */
  method ScanCombos(target: string, prefix: string, combos: seq<string>, flag: SharedFlag)
    returns (hit: bool, count: nat)
    requires flag.value == 0
    ensures hit ==> 1 <= count <= |combos| && prefix + combos[count - 1] == target
    ensures !hit ==> count == |combos|
    ensures MissesBefore(prefix, combos, target, count - (if hit then 1 else 0))
  {
    count := 0;
    while count < |combos|
      invariant count <= |combos|
      invariant MissesBefore(prefix, combos, target, count)
    {
      if flag.value != 0 {
        break;
      }
      var g := prefix + combos[count];
      count := count + 1;
      if g == target {
        return true, count;
      }
    }
    return false, count;
  }

  /** What each worker of a stratum would report with the flag clear. */
  ghost function Reports(target: string, charset: string, length: nat, parts: seq<seq<string>>, k: nat): (es: seq<Outcome>)
    requires k <= length
    ensures |es| == |parts|
  {
    seq(|parts|, q requires 0 <= q < |parts| => Evaluate(Cross(parts[q], Product(charset, length - k)), target))
  }

  /** The workers of one stratum in chunk order. The ones after the match
      report nothing, which the fold ignores anyway; the flag is left set
      exactly when the fold holds a match. */
  method RunStratum(target: string, charset: string, length: nat, parts: seq<seq<string>>, flag: SharedFlag, ghost k: nat)
    returns (rs: seq<Outcome>)
    requires 1 <= length && k <= length
    requires forall q :: 0 <= q < |parts| ==> Uniform(parts[q], k)
    requires flag.value == 0
    modifies flag
    ensures Aggregate(rs) == Aggregate(Reports(target, charset, length, parts, k))
    ensures flag.value == 0 <==> !Truthy(Aggregate(rs).guess)
  {
    ghost var es := Reports(target, charset, length, parts, k);
    ghost var hit: nat := 0;
    rs := [];
    var j := 0;
    while j < |parts|
      invariant j <= |parts| && |rs| == j
      invariant flag.value == 0 || flag.value == 1
      invariant FlagState(rs, es, hit, flag.value == 1)
    {
      ghost var before := flag.value;
      var g, a := Worker(target, charset, length, parts[j], flag, k);
      FlagStep(rs, es, hit, before == 1, Outcome(g, a), flag.value == 1);
      if before == 0 && g.Some? {
        hit := j;
      }
      rs := rs + [Outcome(g, a)];
      j := j + 1;
    }
    FlagFold(rs, es, hit, flag.value == 1);
  }

  /** The reports gathered so far against the flag-free reports es: with the
      flag clear they are the first reports of es and all miss; with it set,
      report `hit` is the first match and they agree with es up to it. */
  ghost predicate FlagState(rs: seq<Outcome>, es: seq<Outcome>, hit: nat, flagSet: bool)
  {
    && |rs| <= |es|
    && (!flagSet ==> rs == es[..|rs|] && forall q :: 0 <= q < |rs| ==> !Truthy(es[q].guess))
    && (flagSet ==>
          && hit < |rs| && Truthy(es[hit].guess)
          && (forall q :: 0 <= q <= hit ==> rs[q] == es[q])
          && (forall q :: 0 <= q < hit ==> !Truthy(es[q].guess)))
  }

  /** One more worker report: while the flag is clear it is the flag-free
      report, and it sets the flag exactly when it matches; once the flag is
      set, it stays set and the first match stays the one that decides. */
  lemma FlagStep(rs: seq<Outcome>, es: seq<Outcome>, hit: nat, flagSet: bool, o: Outcome, flagSet': bool)
    requires |rs| < |es| && FlagState(rs, es, hit, flagSet)
    requires !flagSet ==> o == es[|rs|] && (flagSet' <==> o.guess.Some?)
    requires o.guess.Some? ==> o.guess.value != []
    requires flagSet ==> flagSet'
    ensures FlagState(rs + [o], es, if !flagSet && flagSet' then |rs| else hit, flagSet')
  {
    var rs' := rs + [o];
    if !flagSet {
      assert rs' == es[..|rs'|];
    } else {
      assert forall q :: 0 <= q <= hit ==> rs'[q] == rs[q];
    }
  }

  /** The reports of a stratum fold like the flag-free reports: with the flag
      clear all of them agree and all miss; with it set they agree up to the
      first match, which decides the fold. */
  lemma FlagFold(rs: seq<Outcome>, es: seq<Outcome>, hit: nat, flagSet: bool)
    requires |rs| == |es| && FlagState(rs, es, hit, flagSet)
    ensures Aggregate(rs) == Aggregate(es)
    ensures flagSet <==> Truthy(Aggregate(rs).guess)
  {
    if !flagSet {
      assert rs == es;
      AggregateSplit(es, |es|);
    } else {
      AggregateUpToHit(rs, es, hit);
      AggregateSplit(es, hit);
      assert es[hit..][0] == es[hit];
    }
  }

  /** One stratum: `FlagPrefixLen` prefixes (the charset itself for length 1),
      chunked, searched and folded, which is the search of all strings of
      that length in lexicographic order. */
  method CrackStratum(target: string, charset: string, length: nat, workers: nat, flag: SharedFlag)
    returns (r: Result<Outcome>)
    requires workers > 0 && length >= 1
    requires flag.value == 0
    modifies flag
    ensures r.Failure? <==> |charset| == 0
    ensures r.Success? ==> r.value == Stratum(charset, length, target)
    ensures r.Success? && !Truthy(r.value.guess) ==> flag.value == 0
  {
    var k := FlagPrefixLen(length, |charset|);
    var chunks := ChunkFlagPrefixes(charset, workers, k);
    if chunks.Failure? {
      return Failure(chunks.error);
    }
    var parts := chunks.value;
    var rs := RunStratum(target, charset, length, parts, flag, k);
    var found: Option<string> := None;
    var attempts: nat := 0;
    found, attempts := CpuCracker.FoldResults(rs);
    StratumScan(charset, k, length, parts, Reports(target, charset, length, parts, k), target);
    return Success(Outcome(found, attempts));
  }

  /** `parallel_brute_force_crack`: one flag for the whole run, strata
      1..maxLength in order, stopping at the first stratum whose fold holds a
      match. An empty charset makes `chunk_prefixes` raise at the first
      stratum, and nothing catches the error. */
  method ParallelCrack(target: string, charset: string, maxLength: nat, workers: nat)
    returns (r: Result<Outcome>)
    requires workers > 0
    ensures r.Failure? <==> |charset| == 0 && maxLength > 0
    ensures r.Success? ==> r.value == Aggregate(Strata(charset, maxLength, target))
  {
    var flag := new SharedFlag();
    ghost var es := Strata(charset, maxLength, target);
    var total: nat := 0;
    var done: nat := 0;
    while done < maxLength
      invariant done <= maxLength
      invariant flag.value == 0
      invariant |charset| == 0 ==> done == 0
      invariant Aggregate(es) == Outcome(Aggregate(es[done..]).guess, total + Aggregate(es[done..]).attempts)
    {
      var stratum := CrackStratum(target, charset, done + 1, workers, flag);
      if stratum.Failure? {
        return Failure(stratum.error);
      }
      var o := stratum.value;
      FoldStep(es, done, total, o);
      total := total + o.attempts;
      if Truthy(o.guess) {
        return Success(Outcome(o.guess, total));
      }
      done := done + 1;
    }
    assert es[done..] == [];
    return Success(Outcome(None, total));
  }

  /** The `__main__` block, as in password_cracker_CPU.py: stripped target,
      canonical charset, lengths up to the target's own. */
  method CrackTarget(line: string, workers: nat) returns (r: Result<Outcome>)
    requires workers > 0
    ensures var t := Strip(line); var cs := CanonicalCharset(t);
      && (r.Failure? <==> t != [] && forall k :: 0 <= k < |t| ==> !Printable(t[k]))
      && (r.Success? ==>
            r.value == (if t != [] && Over(cs, t) then Outcome(Some(t), SumPow(|cs|, |t| - 1) + Rank(cs, t) + 1)
                        else Outcome(None, SumPow(|cs|, |t|))))
  {
    var target := Strip(line);
    var charset := CanonicalCharset(target);
    CanonicalCharsetEmpty(target);
    CpuCracker.SearchOwnCharset(target);
    r := ParallelCrack(target, charset, |target|, workers);
  }
}
