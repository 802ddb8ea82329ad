/** The cracking thread of gui_cracker.py: the charset has no space class,
    the prefixes are the single characters of the charset cut into
    contiguous slices (one per worker), and a stop request from the window
    ends the run between or during strata without a result. */
module GuiCracker {
  import opened Wrappers
  import opened Arith
  import opened Keyspace
  import opened Search
  import opened Partition
  import opened Alphabet
  import CpuCracker

  /** When the stop request is first seen: never, at the check before the
      stratum of that length starts, or while its pool is being polled. */
  datatype Stop = Never | BeforeStratum(length: nat) | WhilePolling(length: nat)

  /** How a run ends: the empty password is refused before any search, a
      stop request ends it with nothing reported, or the search finishes. */
  datatype GuiOutcome = Rejected | Stopped | Done(outcome: Outcome)

  /** A stop at some stratum takes effect iff no earlier stratum found the
      target. */
  predicate StopTakesEffect(stop: Stop, es: seq<Outcome>)
  {
    stop != Never && 1 <= stop.length <= |es|
    && forall j :: 0 <= j < stop.length - 1 ==> !Truthy(es[j].guess)
  }

  /** `worker`: each character of the chunk followed by every suffix of
      length `length - 1` in `itertools.product` order. */
  method Worker(target: string, charset: string, length: nat, chunk: string)
    returns (guess: Option<string>, attempts: nat)
    requires length >= 1
    ensures Outcome(guess, attempts) == Evaluate(Cross(ListOf(chunk), Product(charset, length - 1)), target)
  {
    ghost var prefixes := ListOf(chunk);
    ghost var ss := Product(charset, length - 1);
    attempts := 0;
    var i := 0;
    while i < |chunk|
      invariant i <= |chunk|
      invariant target !in Cross(prefixes[..i], ss)
      invariant attempts == |Cross(prefixes[..i], ss)|
    {
      var prefix := [chunk[i]];
      assert prefix == prefixes[i];
      var combos := Product(charset, length - |prefix|);
      var j := 0;
      while j < |combos|
        invariant j <= |combos|
        invariant attempts == |Cross(prefixes[..i], ss)| + j
        invariant forall jj :: 0 <= jj < j ==> prefix + combos[jj] != target
      {
        var g := prefix + combos[j];
        attempts := attempts + 1;
        if g == target {
          CrossHit(prefixes, ss, i, j, target);
          return Some(g), attempts;
        }
        j := j + 1;
      }
      CrossMiss(prefixes, ss, i, target);
      i := i + 1;
    }
    assert prefixes[..i] == prefixes;
    return None, attempts;
  }

  /** The charset slices as the workers' prefix lists. */
  function PrefixLists(chunks: seq<string>): (parts: seq<seq<string>>)
    ensures |parts| == |chunks|
    ensures Flatten(parts) == ListOf(Flatten(chunks))
  {
    ListOfFlatten(chunks);
    seq(|chunks|, i requires 0 <= i < |chunks| => ListOf(chunks[i]))
  }

  /** One stratum: one worker per slice of the charset, the reports folded in
      slice order; the result is the search of all strings of that length.
      The stop request may be seen while the pool runs, after the slices were
      made. */
  method CrackStratum(target: string, charset: string, length: nat, workers: nat, stopWhilePolling: bool)
    returns (r: Result<Option<Outcome>>)
    requires workers > 0 && length >= 1
    ensures r.Failure? <==> |charset| == 0
    ensures r.Success? ==> (r.value.None? <==> stopWhilePolling)
    ensures r.Success? && r.value.Some? ==> r.value.value == Stratum(charset, length, target)
  {
    var chunks := ChunkList(charset, workers);
    if chunks.Failure? {
      return Failure(chunks.error);
    }
    if stopWhilePolling {
      return Success(None);
    }
    var rs := RunWorkers(target, charset, length, chunks.value);
    ghost var parts := PrefixLists(chunks.value);
    var found, attempts := CpuCracker.FoldResults(rs);
    ListOfIsProduct(charset);
    StratumScan(charset, 1, length, parts, rs, target);
    return Success(Some(Outcome(found, attempts)));
  }

  /** The pool's map of `worker` over the charset slices: one report per
      slice, in slice order. */
  method RunWorkers(target: string, charset: string, length: nat, chunks: seq<string>) returns (rs: seq<Outcome>)
    requires length >= 1
    ensures |rs| == |chunks|
    ensures forall q :: 0 <= q < |chunks| ==>
      rs[q] == Evaluate(Cross(ListOf(chunks[q]), Product(charset, length - 1)), target)
  {
    rs := [];
    var q := 0;
    while q < |chunks|
      invariant q <= |chunks| && |rs| == q
      invariant forall p :: 0 <= p < q ==> rs[p] == Evaluate(Cross(ListOf(chunks[p]), Product(charset, length - 1)), target)
    {
      var g, a := Worker(target, charset, length, chunks[q]);
      rs := rs + [Outcome(g, a)];
      q := q + 1;
    }
  }

  /** `parallel_brute_force_crack`: strata 1..maxLength, a stop check before
      each, and the first stratum whose fold holds a match ends the search.
      An empty charset makes `chunk_prefixes` raise unless the stop came
      first. */
  method ParallelCrack(target: string, charset: string, maxLength: nat, workers: nat, stop: Stop)
    returns (r: Result<GuiOutcome>)
    requires workers > 0
    ensures CrackSpec(target, charset, maxLength, stop, r)
  {
    var total: nat := 0;
    var done: nat := 0;
    while done < maxLength
      invariant Progress(target, charset, maxLength, stop, done, total)
    {
      var exit;
      exit, total := CrackNext(target, charset, maxLength, workers, stop, done, total);
      if exit.Some? {
        return exit.value;
      }
      done := done + 1;
    }
    ghost var es := Strata(charset, maxLength, target);
    assert es[done..] == [];
    DoneClosed(target, charset, maxLength, stop, done, Outcome(None, total));
    return Success(Done(Outcome(None, total)));
  }

  /** The run after `done` strata that all missed with no stop seen: an empty
      charset has not been reached past stratum 0, a stop, if any, lies ahead,
      and the fold of all strata is total plus the fold from stratum done + 1
      on. */
  ghost predicate Progress(target: string, charset: string, maxLength: nat, stop: Stop, done: nat, total: nat)
  {
    var es := Strata(charset, maxLength, target);
    && done <= maxLength
    && (|charset| == 0 ==> done == 0)
    && (forall j :: 0 <= j < done ==> !Truthy(es[j].guess))
    && (stop != Never ==> stop.length == 0 || stop.length > done)
    && Aggregate(es) == Outcome(Aggregate(es[done..]).guess, total + Aggregate(es[done..]).attempts)
  }

  /** One pass of the loop over the lengths: the stop check before stratum
      done + 1, its search and the stop check while polling. Either the run
      ends here with its answer, or the stratum missed and the run goes on
      with its attempts added. */
  method CrackNext(target: string, charset: string, maxLength: nat, workers: nat, stop: Stop, done: nat, total: nat)
    returns (exit: Option<Result<GuiOutcome>>, total': nat)
    requires workers > 0 && done < maxLength && Progress(target, charset, maxLength, stop, done, total)
    ensures exit.Some? ==> CrackSpec(target, charset, maxLength, stop, exit.value)
    ensures exit.None? ==> Progress(target, charset, maxLength, stop, done + 1, total')
  {
    ghost var es := Strata(charset, maxLength, target);
    var length := done + 1;
    if stop == BeforeStratum(length) {
      StopClosed(target, charset, maxLength, stop, done);
      return Some(Success(Stopped)), total;
    }
    var stratum := CrackStratum(target, charset, length, workers, stop == WhilePolling(length));
    if stratum.Failure? {
      FailureClosed(target, charset, maxLength, stop, stratum.error);
      return Some(Failure(stratum.error)), total;
    }
    if stratum.value.None? {
      StopClosed(target, charset, maxLength, stop, done);
      return Some(Success(Stopped)), total;
    }
    var o := stratum.value.value;
    FoldStep(es, done, total, o);
    total' := total + o.attempts;
    if Truthy(o.guess) {
      DoneClosed(target, charset, maxLength, stop, done + 1, Outcome(o.guess, total'));
      return Some(Success(Done(Outcome(o.guess, total')))), total';
    }
    exit := None;
  }

  /** What `parallel_brute_force_crack` reports: it fails iff the charset is
      empty, there is a stratum to search and the stop did not come before
      the first one; otherwise it is stopped iff the stop takes effect, and
      else it is the fold of the strata. */
  ghost predicate CrackSpec(target: string, charset: string, maxLength: nat, stop: Stop, r: Result<GuiOutcome>)
  {
    && (r.Failure? <==> |charset| == 0 && maxLength > 0 && stop != BeforeStratum(1))
    && (r.Success? ==>
          r.value == (if StopTakesEffect(stop, Strata(charset, maxLength, target)) then Stopped
                      else Done(Aggregate(Strata(charset, maxLength, target)))))
  }

  /** A stop seen at stratum done + 1, after strata that all missed, is the
      run's answer; with an empty charset it can only come before stratum 1. */
  lemma StopClosed(target: string, charset: string, maxLength: nat, stop: Stop, done: nat)
    requires done < maxLength && stop != Never && stop.length == done + 1
    requires forall j :: 0 <= j < done ==> !Truthy(Strata(charset, maxLength, target)[j].guess)
    requires |charset| == 0 ==> stop == BeforeStratum(1)
    ensures CrackSpec(target, charset, maxLength, stop, Success(Stopped))
  {
    StopEffect(stop, Strata(charset, maxLength, target), done);
  }

  /** The empty charset raised at stratum 1, the stop not having come
      before it. */
  lemma FailureClosed(target: string, charset: string, maxLength: nat, stop: Stop, e: string)
    requires |charset| == 0 && maxLength > 0 && stop != BeforeStratum(1)
    ensures CrackSpec(target, charset, maxLength, stop, Failure(e))
  {
  }

  /** The fold o of all the strata, reached after n of them with no stop
      seen, is the run's answer. */
  lemma DoneClosed(target: string, charset: string, maxLength: nat, stop: Stop, n: nat, o: Outcome)
    requires var es := Strata(charset, maxLength, target);
      n == |es| || (1 <= n <= |es| && Truthy(es[n - 1].guess))
    requires stop != Never ==> stop.length == 0 || stop.length > n
    requires |charset| == 0 ==> maxLength == 0
    requires o == Aggregate(Strata(charset, maxLength, target))
    ensures CrackSpec(target, charset, maxLength, stop, Success(Done(o)))
  {
    NoStopAfter(stop, Strata(charset, maxLength, target), n);
  }

  /** A stop seen at the stratum after `done` strata that all missed takes
      effect. */
  lemma StopEffect(stop: Stop, es: seq<Outcome>, done: nat)
    requires done < |es| && stop != Never && stop.length == done + 1
    requires forall j :: 0 <= j < done ==> !Truthy(es[j].guess)
    ensures StopTakesEffect(stop, es)
  {
  }

  /** A stop that was not seen in the first n strata, where the n-th found
      the target or was the last, never takes effect. */
  lemma NoStopAfter(stop: Stop, es: seq<Outcome>, n: nat)
    requires n == |es| || (1 <= n <= |es| && Truthy(es[n - 1].guess))
    requires stop != Never ==> stop.length == 0 || stop.length > n
    ensures !StopTakesEffect(stop, es)
  {
    if stop != Never && 1 <= stop.length <= |es| {
      assert 0 <= n - 1 < stop.length - 1 && Truthy(es[n - 1].guess);
    }
  }

  /** The search over the GUI charset of the password, lengths 1..|t|: a
      password of printable ASCII without blanks is found after the shorter
      candidates plus its rank plus one; any other exhausts the keyspace. */
  lemma SearchGuiCharset(t: string)
    ensures var cs := JoinPresent(GuiClasses, t);
      Aggregate(Strata(cs, |t|, t)) ==
        if t != [] && Over(cs, t) then Outcome(Some(t), SumPow(|cs|, |t| - 1) + Rank(cs, t) + 1)
        else Outcome(None, SumPow(|cs|, |t|))
  {
    var cs := JoinPresent(GuiClasses, t);
    GuiCharsetDistinct(t);
    StrataSpace(cs, |t|, t);
    EvaluateSpace(cs, |t|, t);
  }

  /** `start_cracking`: the entry is stripped, an empty password is refused,
      otherwise the charset is detected and the thread runs the search up to
      the password's own length. An exception in the thread ends it with no
      result. */
  method StartCracking(entry: string, workers: nat, stop: Stop) returns (r: Result<GuiOutcome>)
    requires workers > 0
    ensures Strip(entry) == [] ==> r == Success(Rejected)
    ensures Strip(entry) != [] ==> GuiClosed(Strip(entry), stop, r)
  {
    var password := Strip(entry);
    if password == [] {
      return Success(Rejected);
    }
    var charset := DetectCharset(password);
    r := ParallelCrack(password, charset, |password|, workers, stop);
    CrackClosed(password, stop, r);
  }

  /** The result of a run on a non-empty password p, in closed form: it fails
      iff p has no printable non-blank character and the stop did not come
      first; otherwise it is stopped iff the stop takes effect, and else p is
      found after the shorter candidates plus its rank plus one, or the
      keyspace is exhausted when p has a character outside the charset. */
  ghost predicate GuiClosed(p: string, stop: Stop, r: Result<GuiOutcome>)
    requires p != []
  {
    var cs := JoinPresent(GuiClasses, p);
    && (r.Failure? <==> cs == [] && stop != BeforeStratum(1))
    && (r.Success? ==>
          r.value == (if StopTakesEffect(stop, Strata(cs, |p|, p)) then Stopped
                      else if Over(cs, p) then Done(Outcome(Some(p), SumPow(|cs|, |p| - 1) + Rank(cs, p) + 1))
                      else Done(Outcome(None, SumPow(|cs|, |p|)))))
  }

  /** The run over the password's own charset and length, in closed form. */
  lemma CrackClosed(p: string, stop: Stop, r: Result<GuiOutcome>)
    requires p != []
    requires var cs := JoinPresent(GuiClasses, p);
      && (r.Failure? <==> |cs| == 0 && |p| > 0 && stop != BeforeStratum(1))
      && (r.Success? ==>
            r.value == (if StopTakesEffect(stop, Strata(cs, |p|, p)) then Stopped
                        else Done(Aggregate(Strata(cs, |p|, p)))))
    ensures GuiClosed(p, stop, r)
  {
    SearchGuiCharset(p);
  }

}
