/** The log file of password_cracker_GPU.py: its name is the stem
    `log_<timestamp>_<password>` followed by `.log`, or by `_<count>.log`
    for the first count from 2 upwards whose file does not exist yet. The
    clock and the directory listing are parameters. */
module GpuLog {

  /** The decimal digit for d < 10. */
  function DigitChar(d: nat): (c: char)
    requires d < 10
    ensures '0' <= c <= '9'
  {
    (d + '0' as nat) as char
  }

  /** Python's `str(n)` for a natural number: its decimal digits, most
      significant first, with no leading zero. */
  function Decimal(n: nat): (s: string)
    ensures |s| >= 1
    ensures n >= 10 <==> |s| >= 2
    ensures forall k :: 0 <= k < |s| ==> '0' <= s[k] <= '9'
    decreases n
  {
    if n < 10 then [DigitChar(n)] else Decimal(n / 10) + [DigitChar(n % 10)]
  }

  /** Different numbers have different decimal forms. */
  lemma {:induction false} DecimalInjective(a: nat, b: nat)
    requires Decimal(a) == Decimal(b)
    ensures a == b
    decreases a
  {
    var s := Decimal(a);
    if a >= 10 {
      assert b >= 10;
      assert s[..|s| - 1] == Decimal(a / 10) && s[..|s| - 1] == Decimal(b / 10);
      DecimalInjective(a / 10, b / 10);
      assert a % 10 == b % 10 by {
        assert DigitChar(a % 10) == s[|s| - 1] == DigitChar(b % 10);
      }
    }
  }

  /** `log_<timestamp>_<password>`. */
  function LogStem(timestamp: string, password: string): (stem: string)
    ensures |stem| == 5 + |timestamp| + |password| && stem[..4] == "log_"
  {
    "log_" + timestamp + "_" + password
  }

  /** The file name tried at the given count: the bare stem at count 1, the
      count appended after an underscore from 2 on. */
  function LogName(stem: string, count: nat): (name: string)
    requires count >= 1
    ensures |name| >= |stem| + 4 && name[..|stem|] == stem && name[|name| - 4..] == ".log"
  {
    if count == 1 then stem + ".log" else stem + "_" + Decimal(count) + ".log"
  }

  /** Different counts give different file names. */
  lemma LogNamesDistinct(stem: string, c1: nat, c2: nat)
    requires 1 <= c1 && 1 <= c2 && c1 != c2
    ensures LogName(stem, c1) != LogName(stem, c2)
  {
    var n1, n2 := LogName(stem, c1), LogName(stem, c2);
    if c1 == 1 || c2 == 1 {
      // the character after the stem is '.' in one name and '_' in the other
      assert n1[|stem|] != n2[|stem|];
    } else if n1 == n2 {
      assert Decimal(c1) == n1[|stem| + 1..|n1| - 4];
      assert Decimal(c2) == n2[|stem| + 1..|n2| - 4];
      DecimalInjective(c1, c2);
    }
  }

  /** `log_results`' choice of file: the counter starts at 1 and grows while
      the file of that name exists. The name returned is free, every earlier
      count was taken, and so at most |existing| names were skipped. */
  method LogFileName(stem: string, existing: set<string>) returns (name: string, count: nat)
    ensures count >= 1 && name == LogName(stem, count)
    ensures name !in existing
    ensures forall c :: 1 <= c < count ==> LogName(stem, c) in existing
    ensures count <= |existing| + 1
  {
    count := 1;
    name := LogName(stem, count);
    ghost var tried: set<string> := {};
    while name in existing
      invariant count >= 1 && name == LogName(stem, count)
      invariant tried <= existing && |tried| == count - 1
      invariant forall c :: 1 <= c < count ==> LogName(stem, c) in tried
      invariant forall c :: c >= count ==> LogName(stem, c) !in tried
      decreases |existing - tried|
    {
      assert existing - (tried + {name}) < existing - tried;
      forall c | c >= count + 1
        ensures LogName(stem, c) != name
      {
        LogNamesDistinct(stem, c, count);
      }
      tried := tried + {name};
      count := count + 1;
      name := LogName(stem, count);
    }
    assert |tried| <= |existing| by {
      SubsetCard(tried, existing);
    }
  }

  /** A subset is no larger than its superset. */
  lemma {:induction false} SubsetCard<T>(a: set<T>, b: set<T>)
    requires a <= b
    ensures |a| <= |b|
    decreases |a|
  {
    if a != {} {
      var x :| x in a;
      SubsetCard(a - {x}, b - {x});
    }
  }
}
