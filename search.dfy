/** The sequential meaning of every cracker: candidates are compared with the
    target one after another, and a scan reports the first match together with
    how many comparisons it made.

    Workers scan a piece of one length stratum; coordinators fold the workers'
    reports in chunk order and move on to the next length. Everything here is
    stated over plain sequences so that each cracker can be proved against it. */
module Search {
  import opened Wrappers
  import opened Arith
  import opened Keyspace

  /** What a worker or a whole run reports: the matched guess, if any, and how
      many guesses it compared. */
  datatype Outcome = Outcome(guess: Option<string>, attempts: nat)

  /** Python's truth test on a worker's first result: `None` and `""` are false. */
  predicate Truthy(g: Option<string>)
  {
    g.Some? && g.value != []
  }

  /** Position of the first occurrence of t in cands. */
  function FirstIndex(cands: seq<string>, t: string): (r: Option<nat>)
    ensures r.None? <==> t !in cands
    ensures r.Some? ==> r.value < |cands| && cands[r.value] == t
    ensures r.Some? ==> forall j :: 0 <= j < r.value ==> cands[j] != t
  {
    if cands == [] then None
    else if cands[0] == t then Some(0)
    else
      assert cands == [cands[0]] + cands[1..];
      match FirstIndex(cands[1..], t)
      case None => None
      case Some(k) => Some(k + 1)
  }

  /** A scan of cands in order that stops at the first guess equal to t: the guess
      with its 1-based position, or no guess after all |cands| comparisons. */
  function Evaluate(cands: seq<string>, t: string): (o: Outcome)
    ensures o.guess.Some? <==> t in cands
    ensures o.guess.Some? ==> o.guess.value == t && 1 <= o.attempts <= |cands|
    ensures o.guess.Some? ==> cands[o.attempts - 1] == t
    ensures o.guess.Some? ==> forall j :: 0 <= j < o.attempts - 1 ==> cands[j] != t
    ensures o.guess.None? ==> o.attempts == |cands|
  {
    match FirstIndex(cands, t)
    case Some(k) => Outcome(Some(t), k + 1)
    case None => Outcome(None, |cands|)
  }

  /** A match at position k with no earlier match is what the scan reports. */
  lemma EvaluateFound(cands: seq<string>, t: string, k: nat)
    requires k < |cands| && cands[k] == t
    requires forall j :: 0 <= j < k ==> cands[j] != t
    ensures Evaluate(cands, t) == Outcome(Some(t), k + 1)
  {
    var a := Evaluate(cands, t).attempts;
    assert t in cands;
    assert cands[a - 1] == t;
  }

  /** Scanning a concatenation: a match in the front part ends the scan there;
      otherwise the front part is counted in full and the scan goes on. */
  lemma EvaluateConcat(a: seq<string>, b: seq<string>, t: string)
    ensures Evaluate(a + b, t) ==
      if t in a then Evaluate(a, t)
      else Outcome(Evaluate(b, t).guess, |a| + Evaluate(b, t).attempts)
  {
    if t in a {
      var k := Evaluate(a, t).attempts - 1;
      EvaluateFound(a + b, t, k);
    } else if t in b {
      var k := Evaluate(b, t).attempts - 1;
      assert forall j :: 0 <= j < |a| + k ==> (a + b)[j] != t by {
        forall j | 0 <= j < |a| + k
          ensures (a + b)[j] != t
        {
          if j >= |a| {
            assert (a + b)[j] == b[j - |a|];
          }
        }
      }
      EvaluateFound(a + b, t, |a| + k);
    } else {
      assert t !in a + b;
    }
  }

  /** Total attempts of a list of reports. */
  function SumAttempts(rs: seq<Outcome>): nat
  {
    if rs == [] then 0 else SumAttempts(rs[..|rs| - 1]) + rs[|rs| - 1].attempts
  }

  /** Folding worker reports in chunk order: attempts are added up to and
      including the first report whose guess is truthy, whose guess is kept;
      later reports are ignored. */
  function Aggregate(rs: seq<Outcome>): (o: Outcome)
  {
    if rs == [] then Outcome(None, 0)
    else if Truthy(rs[0].guess) then rs[0]
    else
      var rest := Aggregate(rs[1..]);
      Outcome(rest.guess, rs[0].attempts + rest.attempts)
  }

  /** When no report in rs[..i] is truthy, the fold has counted them all and goes
      on with rs[i..]. */
  lemma {:induction false} AggregateSplit(rs: seq<Outcome>, i: nat)
    requires i <= |rs|
    requires forall j :: 0 <= j < i ==> !Truthy(rs[j].guess)
    ensures Aggregate(rs) ==
      Outcome(Aggregate(rs[i..]).guess, SumAttempts(rs[..i]) + Aggregate(rs[i..]).attempts)
    decreases i
  {
    if i > 0 {
      AggregateSplit(rs, i - 1);
      assert rs[i - 1..][1..] == rs[i..];
      assert rs[..i][..i - 1] == rs[..i - 1];
    }
  }

  /** One step of the fold from report i on: report i decides when it is
      truthy, otherwise its attempts are added to the fold of the rest. */
  lemma AggregateFrom(rs: seq<Outcome>, i: nat)
    requires i < |rs|
    ensures Aggregate(rs[i..]) ==
      if Truthy(rs[i].guess) then rs[i]
      else Outcome(Aggregate(rs[i + 1..]).guess, rs[i].attempts + Aggregate(rs[i + 1..]).attempts)
  {
    assert rs[i..][0] == rs[i];
    assert rs[i..][1..] == rs[i + 1..];
  }

  /** A running fold: with acc the attempts of reports before i, the fold of
      all reports is acc plus the fold from i on. Adding report i either ends
      the fold (a truthy guess) or moves it to i + 1. */
  lemma FoldStep(rs: seq<Outcome>, i: nat, acc: nat, o: Outcome)
    requires i < |rs| && rs[i] == o
    requires Aggregate(rs) == Outcome(Aggregate(rs[i..]).guess, acc + Aggregate(rs[i..]).attempts)
    ensures Truthy(o.guess) ==> Aggregate(rs) == Outcome(o.guess, acc + o.attempts)
    ensures !Truthy(o.guess) ==>
      Aggregate(rs) == Outcome(Aggregate(rs[i + 1..]).guess, acc + o.attempts + Aggregate(rs[i + 1..]).attempts)
  {
    AggregateFrom(rs, i);
  }

  /** The state of a fold over the reports after the first i of them: once
      found, the reports seen so far decide the fold; until then acc counts
      their attempts and the fold goes on from report i. */
  predicate Folded(rs: seq<Outcome>, i: nat, found: bool, acc: nat, t: string)
    requires i <= |rs|
  {
    if found then Aggregate(rs) == Outcome(Some(t), acc)
    else Aggregate(rs) == Outcome(Aggregate(rs[i..]).guess, acc + Aggregate(rs[i..]).attempts)
  }

  /** Taking in report i: a worker that starts after the match reports no hit
      and no attempt; otherwise its report is rs[i]. */
  lemma FoldedStep(rs: seq<Outcome>, i: nat, found: bool, acc: nat, t: string, hit: bool, a: nat)
    requires i < |rs| && Folded(rs, i, found, acc, t)
    requires found ==> !hit && a == 0
    requires !found ==> rs[i] == Outcome(if hit then Some(t) else None, a)
    requires hit ==> t != []
    ensures Folded(rs, i + 1, found || hit, acc + a, t)
  {
    if !found {
      FoldStep(rs, i, acc, rs[i]);
    }
  }

  /** After every report: the fold found the target with acc attempts, or
      counted acc attempts without finding it. */
  lemma FoldedDone(rs: seq<Outcome>, found: bool, acc: nat, t: string)
    requires Folded(rs, |rs|, found, acc, t)
    ensures Aggregate(rs) == Outcome(if found then Some(t) else None, acc)
  {
    assert rs[|rs|..] == [];
  }

  /** Concatenation of a list of sequences. */
  function Flatten<T>(ps: seq<seq<T>>): (r: seq<T>)
  {
    if ps == [] then [] else ps[0] + Flatten(ps[1..])
  }

  lemma {:induction false} FlattenConcat<T>(a: seq<seq<T>>, b: seq<seq<T>>)
    ensures Flatten(a + b) == Flatten(a) + Flatten(b)
    decreases |a|
  {
    if a != [] {
      calc {
        Flatten(a + b);
        (a + b)[0] + Flatten((a + b)[1..]);
        { assert (a + b)[1..] == a[1..] + b; }
        a[0] + Flatten(a[1..] + b);
        { FlattenConcat(a[1..], b); }
        a[0] + (Flatten(a[1..]) + Flatten(b));
      }
    } else {
      assert a + b == b;
    }
  }

  /** Folding the reports of workers that each scan one part is the same as one
      scan of all parts in order: the fold stops at the first part holding the
      target, after counting every earlier part in full. */
  lemma {:induction false} AggregateEvaluations(parts: seq<seq<string>>, rs: seq<Outcome>, t: string)
    requires |rs| == |parts|
    requires forall i :: 0 <= i < |rs| ==> rs[i] == Evaluate(parts[i], t)
    requires t != [] || t !in Flatten(parts)
    ensures Aggregate(rs) == Evaluate(Flatten(parts), t)
    decreases |parts|
  {
    if parts != [] {
      EvaluateConcat(parts[0], Flatten(parts[1..]), t);
      if t !in parts[0] {
        assert t !in Flatten(parts[1..]) ==> t !in Flatten(parts);
        AggregateEvaluations(parts[1..], rs[1..], t);
      }
    }
  }

  /** Suffix enumeration orders: `itertools.product` (lexicographic, big-endian)
      in the Python workers, little-endian index decoding in the C++ workers. */
  datatype Order = Lex | Little

  function Suffixes(cs: string, n: nat, ord: Order): (ss: seq<string>)
    ensures |ss| == Pow(|cs|, n)
  {
    match ord
    case Lex => Product(cs, n)
    case Little => LittleProduct(cs, n)
  }

  /** Every word in the list has length k. */
  predicate Uniform(xs: seq<string>, k: nat)
  {
    forall i :: 0 <= i < |xs| ==> |xs[i]| == k
  }

  /** Every suffix has the requested length. */
  lemma SuffixesUniform(cs: string, n: nat, ord: Order)
    ensures Uniform(Suffixes(cs, n, ord), n)
  {
    if ord == Lex {
      ProductIsBigEndian(cs, n);
    }
  }

  /** Every word of the k-fold product has length k. */
  lemma ProductUniform(cs: string, k: nat)
    ensures Uniform(Product(cs, k), k)
  {
    ProductIsBigEndian(cs, k);
  }

  /** Every word of the little-endian order has the requested length. */
  lemma LittleProductUniform(cs: string, k: nat)
    ensures Uniform(LittleProduct(cs, k), k)
  {
  }

  /** One prefix followed by every suffix, in suffix order. */
  function Block(p: string, ss: seq<string>): (b: seq<string>)
    ensures |b| == |ss|
  {
    seq(|ss|, k requires 0 <= k < |ss| => p + ss[k])
  }

  /** The guesses a worker builds: for each prefix in order, that prefix followed
      by every suffix. */
  function Cross(prefixes: seq<string>, ss: seq<string>): (c: seq<string>)
    ensures |c| == |prefixes| * |ss|
  {
    if prefixes == [] then []
    else
      var n := |prefixes| - 1;
      MulSucc(n, |ss|);
      Cross(prefixes[..n], ss) + Block(prefixes[n], ss)
  }

  lemma {:induction false} CrossConcat(a: seq<string>, b: seq<string>, ss: seq<string>)
    ensures Cross(a + b, ss) == Cross(a, ss) + Cross(b, ss)
    decreases |b|
  {
    if b == [] {
      assert a + b == a;
    } else {
      var n := |b| - 1;
      assert (a + b)[..|a + b| - 1] == a + b[..n];
      CrossConcat(a, b[..n], ss);
    }
  }

  /** Workers on consecutive chunks of a prefix list together build exactly the
      guesses of the whole list, in order. */
  lemma {:induction false} CrossFlatten(chunks: seq<seq<string>>, cands: seq<seq<string>>, ss: seq<string>)
    requires |cands| == |chunks|
    requires forall i :: 0 <= i < |chunks| ==> cands[i] == Cross(chunks[i], ss)
    ensures Flatten(cands) == Cross(Flatten(chunks), ss)
    decreases |chunks|
  {
    if chunks != [] {
      CrossFlatten(chunks[1..], cands[1..], ss);
      CrossConcat(chunks[0], Flatten(chunks[1..]), ss);
    }
  }

  /** The guesses of the first i + 1 prefixes extend those of the first i by the
      block of prefix i. */
  lemma CrossSnoc(prefixes: seq<string>, ss: seq<string>, i: nat)
    requires i < |prefixes|
    ensures Cross(prefixes[..i + 1], ss) == Cross(prefixes[..i], ss) + Block(prefixes[i], ss)
  {
    assert prefixes[..i + 1][..i] == prefixes[..i];
  }

  /** None of the first n guesses of prefix p's block is the target. */
  predicate MissesBefore(p: string, ss: seq<string>, t: string, n: int)
  {
    forall i :: 0 <= i < n && i < |ss| ==> p + ss[i] != t
  }

  /** A guess that misses extends the run of misses by one. */
  lemma MissesStep(p: string, ss: seq<string>, t: string, n: nat)
    requires n < |ss| && MissesBefore(p, ss, t, n) && p + ss[n] != t
    ensures MissesBefore(p, ss, t, n + 1)
  {
    forall i | 0 <= i < n + 1
      ensures p + ss[i] != t
    {
      if i < n {
        assert p + ss[i] != t;
      }
    }
  }

  /** A worker that has checked all guesses of prefixes[..i] and the first j
      suffixes of prefix i without a match, and matches suffix j, reports the
      scan's answer: the match with |Cross(prefixes[..i], ss)| + j + 1 attempts. */
  lemma CrossHit(prefixes: seq<string>, ss: seq<string>, i: nat, j: nat, t: string)
    requires i < |prefixes| && j < |ss|
    requires t !in Cross(prefixes[..i], ss)
    requires forall jj :: 0 <= jj < j ==> prefixes[i] + ss[jj] != t
    requires prefixes[i] + ss[j] == t
    ensures Evaluate(Cross(prefixes, ss), t) == Outcome(Some(t), |Cross(prefixes[..i], ss)| + j + 1)
  {
    var front, block := Cross(prefixes[..i], ss), Block(prefixes[i], ss);
    var rest := Cross(prefixes[i + 1..], ss);
    CrossSnoc(prefixes, ss, i);
    CrossConcat(prefixes[..i + 1], prefixes[i + 1..], ss);
    assert prefixes[..i + 1] + prefixes[i + 1..] == prefixes;
    assert Cross(prefixes, ss) == front + block + rest;
    forall k | 0 <= k < |front| + j
      ensures (front + block + rest)[k] != t
    {
      if k >= |front| {
        assert (front + block + rest)[k] == block[k - |front|];
      }
    }
    EvaluateFound(front + block + rest, t, |front| + j);
  }

  /** A prefix none of whose suffixes completes t adds nothing that matches. */
  lemma CrossMiss(prefixes: seq<string>, ss: seq<string>, i: nat, t: string)
    requires i < |prefixes|
    requires t !in Cross(prefixes[..i], ss)
    requires forall jj :: 0 <= jj < |ss| ==> prefixes[i] + ss[jj] != t
    ensures t !in Cross(prefixes[..i + 1], ss)
    ensures |Cross(prefixes[..i + 1], ss)| == |Cross(prefixes[..i], ss)| + |ss|
  {
    CrossSnoc(prefixes, ss, i);
    assert t !in Block(prefixes[i], ss);
  }

  /** One prefix scanned against every suffix, after earlier prefixes that
      all missed: a hit at suffix count - 1 settles the whole scan, and a
      miss extends the missed part by one block of |ss| attempts. */
  lemma PrefixStep(prefixes: seq<string>, ss: seq<string>, i: nat, t: string, hit: bool, count: nat, attempts: nat)
    requires i < |prefixes|
    requires t !in Cross(prefixes[..i], ss) && attempts == |Cross(prefixes[..i], ss)|
    requires hit ==> 1 <= count <= |ss| && prefixes[i] + ss[count - 1] == t
    requires !hit ==> count == |ss|
    requires MissesBefore(prefixes[i], ss, t, count - (if hit then 1 else 0))
    ensures hit ==> Outcome(Some(t), attempts + count) == Evaluate(Cross(prefixes, ss), t)
    ensures !hit ==> t !in Cross(prefixes[..i + 1], ss) && attempts + count == |Cross(prefixes[..i + 1], ss)|
  {
    if hit {
      CrossHit(prefixes, ss, i, count - 1, t);
    } else {
      CrossMiss(prefixes, ss, i, t);
    }
  }

  /** Guess i is prefix i / |ss| followed by suffix i % |ss|. */
  lemma {:induction false} CrossAt(prefixes: seq<string>, ss: seq<string>, i: nat)
    requires i < |prefixes| * |ss|
    ensures i / |ss| < |prefixes|
    ensures Cross(prefixes, ss)[i] == prefixes[i / |ss|] + ss[i % |ss|]
    decreases |prefixes|
  {
    var m := |ss|;
    var n := |prefixes| - 1;
    MulSucc(n, m);
    PositiveFactors(|prefixes|, m);
    if i < n * m {
      CrossAt(prefixes[..n], ss, i);
    } else {
      InBlock(i, n, m);
    }
  }

  /** Extending every length-k word by every word of length j in `itertools`
      order gives all words of length k + j in `itertools` order. */
  lemma CrossProduct(cs: string, k: nat, j: nat)
    ensures Cross(Product(cs, k), Product(cs, j)) == Product(cs, k + j)
  {
    PowAdd(|cs|, k, j);
    var c := Cross(Product(cs, k), Product(cs, j));
    forall i | 0 <= i < |c|
      ensures c[i] == Product(cs, k + j)[i]
    {
      CrossProductAt(cs, k, j, i);
    }
  }

  /** One guess of CrossProduct: the prefix and suffix digits of index i are the
      high and low digits of i. */
  lemma CrossProductAt(cs: string, k: nat, j: nat, i: nat)
    requires i < |Product(cs, k)| * |Product(cs, j)|
    ensures i < |Product(cs, k + j)|
    ensures Cross(Product(cs, k), Product(cs, j))[i] == Product(cs, k + j)[i]
  {
    var ps, ss := Product(cs, k), Product(cs, j);
    var big := |ss|;
    PowAdd(|cs|, k, j);
    CrossAt(ps, ss, i);
    PositiveFactors(|ps|, big);
    DivModSplit(i, big);
    var q, r := i / big, i % big;
    ProductAt(cs, k, q);
    ProductAt(cs, j, r);
    ProductAt(cs, k + j, i);
    if k + j > 0 {
      calc {
        Cross(ps, ss)[i];
        ps[q] + ss[r];
        DecodeBig(cs, q, k) + DecodeBig(cs, r, j);
        { WrapBig(cs, i, j); }
        DecodeBig(cs, q, k) + DecodeBig(cs, i, j);
        { SplitBig(cs, i, k, j); }
        DecodeBig(cs, i, k + j);
      }
    }
  }

  /** A prefixed list holds t exactly where the unprefixed list holds the rest of t. */
  lemma EvaluateBlock(p: string, xs: seq<string>, t: string)
    requires |p| <= |t|
    ensures var e := Evaluate(xs, t[|p|..]);
      Evaluate(Block(p, xs), t) ==
      if t[..|p|] == p then Outcome(if e.guess.Some? then Some(t) else None, e.attempts)
      else Outcome(None, |xs|)
  {
    var ys := Block(p, xs);
    var rest := t[|p|..];
    assert t == t[..|p|] + rest;
    if t[..|p|] == p {
      forall k | 0 <= k < |xs|
        ensures ys[k] == t <==> xs[k] == rest
      {
        assert ys[k][|p|..] == xs[k];
      }
      var e := Evaluate(xs, rest);
      if e.guess.Some? {
        EvaluateFound(ys, t, e.attempts - 1);
      } else {
        assert t !in ys;
      }
    } else {
      forall k | 0 <= k < |xs|
        ensures ys[k] != t
      {
        assert ys[k][..|p|] == p;
      }
      assert t !in ys;
    }
  }

  /** Scanning a worker's guesses, in closed form: the target is found in the
      block of the first prefix that starts it, at the position of its rest among
      the suffixes; otherwise every guess is compared. */
  lemma {:induction false} EvaluateCross(prefixes: seq<string>, ss: seq<string>, k: nat, t: string)
    requires Uniform(prefixes, k)
    ensures |t| < k ==> Evaluate(Cross(prefixes, ss), t) == Outcome(None, |prefixes| * |ss|)
    ensures |t| >= k ==> CrossClosed(prefixes, ss, k, t)
    decreases |prefixes|
  {
    if prefixes != [] {
      var n, m := |prefixes| - 1, |ss|;
      var init, p := prefixes[..n], prefixes[n];
      EvaluateCross(init, ss, k, t);
      if |t| >= k {
        EvaluateCrossLast(prefixes, ss, k, t);
      } else {
        var front, block := Cross(init, ss), Block(p, ss);
        MulSucc(n, m);
        assert Cross(prefixes, ss) == front + block;
        EvaluateConcat(front, block, t);
        assert t !in block by {
          forall j | 0 <= j < m
            ensures block[j] != t
          {
            assert |block[j]| >= k;
          }
        }
      }
    }
  }

  /** The closed form of EvaluateCross for a target of at least k symbols:
      found iff its first k symbols are a prefix and its rest a suffix. */
  ghost predicate CrossClosed(prefixes: seq<string>, ss: seq<string>, k: nat, t: string)
    requires |t| >= k
  {
    var ep, es := Evaluate(prefixes, t[..k]), Evaluate(ss, t[k..]);
    Evaluate(Cross(prefixes, ss), t) ==
      if ep.guess.Some? && es.guess.Some? then Outcome(Some(t), (ep.attempts - 1) * |ss| + es.attempts)
      else Outcome(None, |prefixes| * |ss|)
  }

  /** The inductive step of EvaluateCross for a long target: the closed form
      for all prefixes but the last carries over to all of them. */
  lemma EvaluateCrossLast(prefixes: seq<string>, ss: seq<string>, k: nat, t: string)
    requires Uniform(prefixes, k) && prefixes != [] && |t| >= k
    requires CrossClosed(prefixes[..|prefixes| - 1], ss, k, t)
    ensures CrossClosed(prefixes, ss, k, t)
  {
    var n, m := |prefixes| - 1, |ss|;
    var init, p := prefixes[..n], prefixes[n];
    var front, block := Cross(init, ss), Block(p, ss);
    MulSucc(n, m);
    assert Cross(prefixes, ss) == front + block;
    EvaluateConcat(front, block, t);
    var ep, ei, es := Evaluate(prefixes, t[..k]), Evaluate(init, t[..k]), Evaluate(ss, t[k..]);
    assert prefixes == init + [p];
    EvaluateConcat(init, [p], t[..k]);
    EvaluateBlock(p, ss, t);
    if ei.guess.Some? {
      assert ep == ei;
      if es.guess.Some? {
        assert t in front;
      } else {
        assert t !in front;
        assert Evaluate(block, t) == Outcome(None, m);
      }
    } else {
      assert t !in front;
      if t[..k] == p {
        assert ep.attempts - 1 == n;
      } else {
        assert ep.guess.None?;
      }
    }
  }


  /** The hit case of EvaluateCross with the two positions named: prefix
      number r1 (0-based) and suffix number r2 give guess r1 * |ss| + r2. */
  lemma CrossHitClosed(ps: seq<string>, ss: seq<string>, k: nat, t: string, r1: nat, r2: nat)
    requires Uniform(ps, k) && |t| >= k
    requires Evaluate(ps, t[..k]) == Outcome(Some(t[..k]), r1 + 1)
    requires Evaluate(ss, t[k..]) == Outcome(Some(t[k..]), r2 + 1)
    ensures Evaluate(Cross(ps, ss), t) == Outcome(Some(t), r1 * |ss| + r2 + 1)
  {
    EvaluateCross(ps, ss, k, t);
  }

  /** The miss case of EvaluateCross: t too short, or its prefix or its
      suffix not found, and every guess is compared. */
  lemma CrossMissClosed(ps: seq<string>, ss: seq<string>, k: nat, t: string)
    requires Uniform(ps, k)
    requires |t| < k || Evaluate(ps, t[..k]).guess.None? || Evaluate(ss, t[k..]).guess.None?
    ensures Evaluate(Cross(ps, ss), t) == Outcome(None, |ps| * |ss|)
  {
    EvaluateCross(ps, ss, k, t);
  }

  /** Workers that each scan one chunk of prefixes (followed by the same
      suffixes), folded in chunk order, give the scan of all prefixes. */
  lemma {:induction false} AggregateCross(parts: seq<seq<string>>, ss: seq<string>, rs: seq<Outcome>, t: string)
    requires |rs| == |parts|
    requires forall j :: 0 <= j < |rs| ==> rs[j] == Evaluate(Cross(parts[j], ss), t)
    requires t != [] || t !in Cross(Flatten(parts), ss)
    ensures Aggregate(rs) == Evaluate(Cross(Flatten(parts), ss), t)
    decreases |parts|
  {
    if parts != [] {
      var front, rest := Cross(parts[0], ss), Cross(Flatten(parts[1..]), ss);
      CrossConcat(parts[0], Flatten(parts[1..]), ss);
      EvaluateConcat(front, rest, t);
      if t !in front {
        assert t !in rest ==> t !in front + rest;
        AggregateCross(parts[1..], ss, rs[1..], t);
      }
    }
  }

  /** One stratum: workers scanning the guesses of consecutive chunks of the
      k-fold product prefixes, folded in chunk order, give the scan of the whole
      stratum. */
  lemma StratumScan(cs: string, k: nat, length: nat, parts: seq<seq<string>>, rs: seq<Outcome>, t: string)
    requires k <= length && length >= 1
    requires Flatten(parts) == Product(cs, k)
    requires |rs| == |parts|
    requires forall j :: 0 <= j < |rs| ==> rs[j] == Evaluate(Cross(parts[j], Product(cs, length - k)), t)
    ensures Aggregate(rs) == Evaluate(Product(cs, length), t)
  {
    var ss := Product(cs, length - k);
    CrossProductSplit(cs, k, length);
    if t == [] {
      EmptyNotInProduct(cs, length);
    }
    AggregateCross(parts, ss, rs, t);
  }

  /** CrossProduct with the stratum length n split as k + (n - k). */
  lemma CrossProductSplit(cs: string, k: nat, n: nat)
    requires k <= n
    ensures Cross(Product(cs, k), Product(cs, n - k)) == Product(cs, n)
  {
    var j := n - k;
    CrossProduct(cs, k, j);
    assert k + j == n;
  }

  /** Every string of a non-empty stratum is non-empty. */
  lemma EmptyNotInProduct(cs: string, n: nat)
    requires n >= 1
    ensures [] !in Product(cs, n)
  {
    ProductUniform(cs, n);
  }

  /** Strata off+1, off+2, ... that each miss after all m^l guesses, then a
      last stratum: the fold reports the last stratum's guess after all the
      misses' attempts and its own. */
  lemma {:induction false} AggregateAfterMisses(es: seq<Outcome>, m: nat, off: nat)
    requires |es| >= 1
    requires forall j :: 0 <= j < |es| - 1 ==> es[j] == Outcome(None, Pow(m, off + j + 1))
    requires es[|es| - 1].guess.Some? ==> Truthy(es[|es| - 1].guess)
    ensures Aggregate(es).guess == es[|es| - 1].guess
    ensures SumPow(m, off) + Aggregate(es).attempts == SumPow(m, off + |es| - 1) + es[|es| - 1].attempts
    decreases |es|
  {
    if |es| > 1 {
      AggregateAfterMisses(es[1..], m, off + 1);
    }
  }

  /** Two report lists that agree up to and including a truthy report fold alike. */
  lemma {:induction false} AggregateUpToHit(rs: seq<Outcome>, es: seq<Outcome>, h: nat)
    requires h < |rs| && h < |es|
    requires forall j :: 0 <= j <= h ==> rs[j] == es[j]
    requires Truthy(es[h].guess)
    ensures Aggregate(rs) == Aggregate(es)
    decreases h
  {
    if h > 0 && !Truthy(es[0].guess) {
      AggregateUpToHit(rs[1..], es[1..], h - 1);
    }
  }

  /** The search up to length l is the start of the search up to any L >= l. */
  lemma {:induction false} SpacePrefix(cs: string, l: nat, L: nat)
    requires l <= L
    ensures |Space(cs, l)| <= |Space(cs, L)|
    ensures Space(cs, L)[..|Space(cs, l)|] == Space(cs, l)
    decreases L
  {
    if L > l {
      SpacePrefix(cs, l, L - 1);
      var front := Space(cs, L - 1);
      assert Space(cs, L) == front + Product(cs, L);
      assert (front + Product(cs, L))[..|Space(cs, l)|] == front[..|Space(cs, l)|];
    }
  }

  /** The whole search up to length L finds what a shorter search finds, at the
      same count. */
  lemma EvaluateSpaceFound(cs: string, l: nat, L: nat, t: string)
    requires l <= L && t in Space(cs, l)
    ensures Evaluate(Space(cs, L), t) == Evaluate(Space(cs, l), t)
  {
    SpacePrefix(cs, l, L);
    EvaluatePrefix(Space(cs, L), |Space(cs, l)|, t);
  }

  /** A scan that finds t among the first n candidates ends there. */
  lemma EvaluatePrefix(xs: seq<string>, n: nat, t: string)
    requires n <= |xs| && t in xs[..n]
    ensures Evaluate(xs, t) == Evaluate(xs[..n], t)
  {
    assert xs == xs[..n] + xs[n..];
    EvaluateConcat(xs[..n], xs[n..], t);
  }

  /** Scanning one more stratum after a miss: the count so far plus the scan of
      the new stratum. */
  lemma EvaluateSpaceStep(cs: string, l: nat, t: string)
    requires l >= 1 && t !in Space(cs, l - 1)
    ensures var e := Evaluate(Product(cs, l), t);
      Evaluate(Space(cs, l), t) == Outcome(e.guess, |Space(cs, l - 1)| + e.attempts)
  {
    EvaluateConcat(Space(cs, l - 1), Product(cs, l), t);
  }

  /** Scanning the `itertools` product of length n: a word over cs of length n is
      found at its rank (when cs repeats no symbol); any other string is not found
      after all m^n guesses. */
  lemma EvaluateProduct(cs: string, n: nat, t: string)
    requires Distinct(cs)
    ensures Evaluate(Product(cs, n), t) ==
      if |t| == n && Over(cs, t) then Outcome(Some(t), Rank(cs, t) + 1)
      else Outcome(None, Pow(|cs|, n))
  {
    var ps := Product(cs, n);
    ProductIsBigEndian(cs, n);
    if |t| == n && Over(cs, t) {
      var r := Rank(cs, t);
      DecodeRank(cs, t);
      forall j | 0 <= j < r
        ensures ps[j] != t
      {
        RankDecode(cs, j, n);
      }
      EvaluateFound(ps, t, r);
    } else {
      assert t !in ps;
    }
  }

  /** The same for the little-endian order of the C++ suffix loops. */
  lemma EvaluateLittleProduct(cs: string, n: nat, t: string)
    requires Distinct(cs)
    ensures Evaluate(LittleProduct(cs, n), t) ==
      if |t| == n && Over(cs, t) then Outcome(Some(t), RankLittle(cs, t) + 1)
      else Outcome(None, Pow(|cs|, n))
  {
    var ps := LittleProduct(cs, n);
    if |t| == n && Over(cs, t) {
      var r := RankLittle(cs, t);
      if n > 0 {
        assert t[0] in cs;
        DecodeLittleBijective(cs, n);
        forall j | 0 <= j < r
          ensures ps[j] != t
        {
        }
      }
      EvaluateFound(ps, t, r);
    } else {
      assert t !in ps;
    }
  }

  /** All candidates of lengths 1..L in the Python order: length by length, each
      length in `itertools` order. */
  function Space(cs: string, L: nat): seq<string>
  {
    if L == 0 then [] else Space(cs, L - 1) + Product(cs, L)
  }

  /** There are m + m^2 + ... + m^L candidates (`overall_total`). */
  lemma {:induction false} SpaceLength(cs: string, L: nat)
    ensures |Space(cs, L)| == SumPow(|cs|, L)
  {
    if L > 0 {
      SpaceLength(cs, L - 1);
    }
  }

  /** Every candidate of the search up to L is a word over cs of length 1..L,
      listed in the stratum of its length. */
  lemma {:induction false} SpaceMember(cs: string, L: nat, x: string)
    requires x in Space(cs, L)
    ensures 1 <= |x| <= L && Over(cs, x)
  {
    if L > 0 {
      if x in Space(cs, L - 1) {
        SpaceMember(cs, L - 1, x);
      } else {
        ProductMember(cs, L, x);
      }
    }
  }

  /** A word over cs of length 1..L (with no repeated symbol in cs) is found after
      all shorter words plus its rank plus one guesses. */
  lemma EvaluateSpaceHit(cs: string, L: nat, t: string)
    requires Distinct(cs) && 1 <= |t| <= L && Over(cs, t)
    ensures Evaluate(Space(cs, L), t) == Outcome(Some(t), SumPow(|cs|, |t| - 1) + Rank(cs, t) + 1)
  {
    var n := |t|;
    var front := Space(cs, n - 1);
    var r := Rank(cs, t);
    EvaluateProduct(cs, n, t);
    assert Evaluate(Product(cs, n), t) == Outcome(Some(t), r + 1);
    if t in front {
      SpaceMember(cs, n - 1, t);
    }
    EvaluateSpaceStep(cs, n, t);
    SpaceLength(cs, n - 1);
    assert |front| == SumPow(|cs|, n - 1);
    assert Evaluate(Space(cs, n), t) == Outcome(Some(t), |front| + r + 1);
    EvaluateSpaceFound(cs, n, L, t);
  }

  /** Anything else is not found, after all m + m^2 + ... + m^L guesses. */
  lemma EvaluateSpaceMiss(cs: string, L: nat, t: string)
    requires !(1 <= |t| <= L && Over(cs, t))
    ensures Evaluate(Space(cs, L), t) == Outcome(None, SumPow(|cs|, L))
  {
    if t in Space(cs, L) {
      SpaceMember(cs, L, t);
    }
    SpaceLength(cs, L);
  }

  /** The whole search in closed form: a target of length 1..L over cs (with no
      repeated symbol) is found after all shorter words plus its rank plus one
      guesses; anything else is not found after m + m^2 + ... + m^L guesses. */
  lemma EvaluateSpace(cs: string, L: nat, t: string)
    requires Distinct(cs)
    ensures Evaluate(Space(cs, L), t) ==
      if 1 <= |t| <= L && Over(cs, t) then Outcome(Some(t), SumPow(|cs|, |t| - 1) + Rank(cs, t) + 1)
      else Outcome(None, SumPow(|cs|, L))
  {
    if 1 <= |t| <= L && Over(cs, t) {
      EvaluateSpaceHit(cs, L, t);
    } else {
      EvaluateSpaceMiss(cs, L, t);
    }
  }

  /** The search of one stratum: every string of length l over cs, in
      lexicographic order. */
  function Stratum(cs: string, l: nat, t: string): Outcome
  {
    Evaluate(Product(cs, l), t)
  }

  /** The reports of strata 1..L, in increasing length. */
  function Strata(cs: string, L: nat, t: string): (es: seq<Outcome>)
    ensures |es| == L
  {
    seq(L, i requires 0 <= i < L => Stratum(cs, i + 1, t))
  }

  /** The candidates of strata 1..L, one part per stratum. */
  function StrataParts(cs: string, L: nat): (parts: seq<seq<string>>)
    ensures |parts| == L
  {
    seq(L, i requires 0 <= i < L => Product(cs, i + 1))
  }

  /** The strata of lengths 1..L are the strata of 1..L-1 and stratum L. */
  lemma StrataPartsSnoc(cs: string, L: nat)
    requires L > 0
    ensures StrataParts(cs, L) == StrataParts(cs, L - 1) + [Product(cs, L)]
  {
    var a, b := StrataParts(cs, L), StrataParts(cs, L - 1) + [Product(cs, L)];
    forall i | 0 <= i < L
      ensures a[i] == b[i]
    {
      if i < L - 1 {
        assert b[i] == StrataParts(cs, L - 1)[i];
      }
    }
  }

  /** The strata of lengths 1..L laid end to end are the keyspace of those
      lengths. */
  lemma {:induction false} StrataPartsFlatten(cs: string, L: nat)
    ensures Flatten(StrataParts(cs, L)) == Space(cs, L)
  {
    if L > 0 {
      StrataPartsSnoc(cs, L);
      FlattenConcat(StrataParts(cs, L - 1), [Product(cs, L)]);
      StrataPartsFlatten(cs, L - 1);
      assert Flatten([Product(cs, L)]) == Product(cs, L) + Flatten<string>([]);
    }
  }

  /** Folding the strata reports the way the coordinators do (stop at the first
      truthy stratum, add up the attempts before it) is one scan of the whole
      keyspace of lengths 1..L. */
  lemma StrataSpace(cs: string, L: nat, t: string)
    ensures Aggregate(Strata(cs, L, t)) == Evaluate(Space(cs, L), t)
  {
    var parts := StrataParts(cs, L);
    StrataPartsFlatten(cs, L);
    if t in Space(cs, L) {
      SpaceMember(cs, L, t);
    }
    AggregateEvaluations(parts, Strata(cs, L, t), t);
  }
}
