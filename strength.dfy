/** The strength check of password_generator.py (`check_pass` and the length
    guard of `activate`): one pass over the password raises a flag per
    character class (lower case, upper case, special, digit) the first time
    the class is met, adding one to the score and the class size to the
    charset size; a length bonus follows, then the verdict and the
    suggestions. */
module Strength {
  import opened Wrappers
  import opened Alphabet

  /** The list S of special characters: the 32 ASCII punctuation characters
      in the generator's own order. */
  const Specials: string := "!@#$%^&*()-_=+[{]};:'\",<.>/?\\|`~"

  /** The verdicts indexed by `min(sc, 5)`. */
  const Verdicts: seq<string> := ["Error", "Password Security = Very Weak", "Password Security = Weak",
                                  "Password Security = Ok", "Password Security = Secure",
                                  "Password Security = Very Secure"]

  /** Some character of pw is in the class list. */
  predicate Has(pw: string, cls: string)
  {
    exists k :: 0 <= k < |pw| && pw[k] in cls
  }

  /** The four flags `l`, `u`, `s`, `n`. */
  datatype Classes = Classes(lower: bool, upper: bool, special: bool, digit: bool)

  /** What the scan finds in pw. */
  function ClassesOf(pw: string): Classes
  {
    Classes(Has(pw, Lower), Has(pw, Upper), Has(pw, Specials), Has(pw, Digits))
  }

  /** The number of raised flags. */
  function ClassCount(c: Classes): (n: nat)
    ensures n <= 4
  {
    (if c.lower then 1 else 0) + (if c.upper then 1 else 0) + (if c.special then 1 else 0) + (if c.digit then 1 else 0)
  }

  /** `cs`: the sizes of the lists of the raised flags, added up. */
  function CharsetSize(c: Classes): nat
  {
    (if c.lower then |Lower| else 0) + (if c.upper then |Upper| else 0)
    + (if c.special then |Specials| else 0) + (if c.digit then |Digits| else 0)
  }

  /** The length bonus as written: one point for eight characters or more,
      two for fewer. */
  function LengthBonusAsWritten(len: nat): (b: nat)
    ensures 1 <= b <= 2
  {
    if len >= 8 then 1 else 2
  }

  /** The length bonus with the two constants the right way round: two points
      for eight characters or more, one for fewer. It swaps the two values of
      the bonus as written, so eight characters or more now earn more than
      they did as written, and fewer earn less. */
  function LengthBonus(len: nat): (b: nat)
    ensures b + LengthBonusAsWritten(len) == 3
    ensures len >= 8 <==> b > LengthBonusAsWritten(len)
  {
    if len >= 8 then 2 else 1
  }

  /** The score `sc` as written. */
  function ScoreAsWritten(pw: string): nat
  {
    ClassCount(ClassesOf(pw)) + LengthBonusAsWritten(|pw|)
  }

  /** The score `sc` with the corrected length bonus. */
  function Score(pw: string): nat
  {
    ClassCount(ClassesOf(pw)) + LengthBonus(|pw|)
  }

  /** What `check_pass` computes before printing. */
  datatype Report = Report(classes: Classes, score: nat, charsetSize: nat)

  /** `check_pass`: the scan, then the length bonus. The score is between 1
      and 6 and the charset size at most 94. The program's own `sc` is one
      below this score for eight characters or more and one above it for
      fewer. */
  method CheckPass(pw: string) returns (r: Report)
    ensures r.classes == ClassesOf(pw)
    ensures r.score == Score(pw) && 1 <= r.score <= 6
    ensures |pw| >= 8 ==> ScoreAsWritten(pw) + 1 == r.score
    ensures |pw| < 8 ==> ScoreAsWritten(pw) == r.score + 1
    ensures r.charsetSize == CharsetSize(r.classes) && r.charsetSize <= 94
  {
    var c, sc, cs := Scan(pw, Lower, Upper, Specials, Digits);
    CharsetSizeBound(c);
    sc := sc + LengthBonus(|pw|);
    return Report(c, sc, cs);
  }

  /** The scan loop of `check_pass` over the four class lists: each flag
      guards its own increments, so a class adds one to `sc` and its size to
      `cs` once, on its first character. */
  method Scan(pw: string, lower: string, upper: string, special: string, digit: string)
    returns (c: Classes, sc: nat, cs: nat)
    ensures c == Classes(Has(pw, lower), Has(pw, upper), Has(pw, special), Has(pw, digit))
    ensures sc == ClassCount(c)
    ensures cs == (if c.lower then |lower| else 0) + (if c.upper then |upper| else 0)
                  + (if c.special then |special| else 0) + (if c.digit then |digit| else 0)
  {
    var l, u, s, n := false, false, false, false;
    sc, cs := 0, 0;
    var i := 0;
    while i < |pw|
      invariant i <= |pw|
      invariant l == Has(pw[..i], lower) && u == Has(pw[..i], upper)
      invariant s == Has(pw[..i], special) && n == Has(pw[..i], digit)
      invariant sc == ClassCount(Classes(l, u, s, n))
      invariant cs == (if l then |lower| else 0) + (if u then |upper| else 0)
                      + (if s then |special| else 0) + (if n then |digit| else 0)
    {
      var ch := pw[i];
      ScanStep(pw, i, lower);
      ScanStep(pw, i, upper);
      ScanStep(pw, i, special);
      ScanStep(pw, i, digit);
      l, sc, cs := Tally(l, ch, lower, sc, cs);
      u, sc, cs := Tally(u, ch, upper, sc, cs);
      s, sc, cs := Tally(s, ch, special, sc, cs);
      n, sc, cs := Tally(n, ch, digit, sc, cs);
      i := i + 1;
    }
    assert pw[..i] == pw;
    c := Classes(l, u, s, n);
  }

  /** One line of the scan, `if not f and c in cls: f, sc, cs = True, sc+1,
      cs+len(cls)`: the flag is raised once, and only its raising counts. */
  method Tally(flag: bool, c: char, cls: string, sc: nat, cs: nat) returns (flag': bool, sc': nat, cs': nat)
    ensures flag' == (flag || c in cls)
    ensures sc' == sc + (if flag' && !flag then 1 else 0)
    ensures cs' == cs + (if flag' && !flag then |cls| else 0)
  {
    flag', sc', cs' := flag, sc, cs;
    if !flag && c in cls {
      flag', sc', cs' := true, sc + 1, cs + |cls|;
    }
  }

  /** One more character raises the flag of a class iff it is in the class. */
  lemma ScanStep(pw: string, i: nat, cls: string)
    requires i < |pw|
    ensures Has(pw[..i + 1], cls) <==> Has(pw[..i], cls) || pw[i] in cls
  {
    if Has(pw[..i + 1], cls) {
      var k :| 0 <= k < i + 1 && pw[..i + 1][k] in cls;
      if k < i {
        assert pw[..i][k] == pw[k];
      }
    }
    if Has(pw[..i], cls) {
      var k :| 0 <= k < i && pw[..i][k] in cls;
      assert pw[..i + 1][k] == pw[k];
    }
    if pw[i] in cls {
      assert pw[..i + 1][i] == pw[i];
    }
  }

  /** The charset size is the sum of the sizes of the classes present:
      26 + 26 + 32 + 10 at most. */
  lemma CharsetSizeBound(c: Classes)
    ensures CharsetSize(c) <= 94
    ensures CharsetSize(c) == 0 <==> ClassCount(c) == 0
  {
    assert |Lower| == 26 && |Upper| == 26 && |Specials| == 32 && |Digits| == 10;
  }

  /** The verdict `min(sc, 5)` of a score from the scan. */
  function Verdict(score: nat): (v: string)
  {
    Verdicts[if score < 5 then score else 5]
  }

  /** A score of at least one never selects the "Error" entry, and a score
      of five or more is "Very Secure". */
  lemma VerdictNeverError(pw: string)
    ensures Verdict(Score(pw)) != "Error" && Verdict(ScoreAsWritten(pw)) != "Error"
    ensures Score(pw) >= 5 <==> Verdict(Score(pw)) == "Password Security = Very Secure"
  {
    var v := Verdict(Score(pw));
    assert Verdicts[0] != Verdicts[1] && Verdicts[0] != Verdicts[2] && Verdicts[0] != Verdicts[3];
    assert Verdicts[0] != Verdicts[4] && Verdicts[0] != Verdicts[5];
    assert Verdicts[5] != Verdicts[1] && Verdicts[5] != Verdicts[2] && Verdicts[5] != Verdicts[3];
    assert Verdicts[5] != Verdicts[4];
  }

  /** The suggestions printed below a score of five: one per missing class,
      in the order lower case, upper case, digits, specials, then the length
      hint below twelve characters. */
  function Suggestions(c: Classes, score: nat, len: nat): (out: seq<string>)
  {
    if score >= 5 then []
    else
      (if !c.lower then ["- Add some lowercase letters."] else [])
      + (if !c.upper then ["- Add some uppercase letters."] else [])
      + (if !c.digit then ["- Add some numbers."] else [])
      + (if !c.special then ["- Add some special characters."] else [])
      + (if len < 12 then ["- Make your password 12 characters long."] else [])
  }

  /** Below five there is always something to suggest: a score under five
      leaves a class missing. Each class hint appears exactly when the score
      is under five and the class is missing, and the length hint exactly
      when the score is under five and the password is shorter than twelve. */
  lemma SuggestionsWhenWeak(pw: string)
    ensures var c := ClassesOf(pw); var out := Suggestions(c, Score(pw), |pw|);
      && (Score(pw) < 5 <==> |out| >= 1)
      && ("- Add some lowercase letters." in out <==> Score(pw) < 5 && !c.lower)
      && ("- Add some uppercase letters." in out <==> Score(pw) < 5 && !c.upper)
      && ("- Add some numbers." in out <==> Score(pw) < 5 && !c.digit)
      && ("- Add some special characters." in out <==> Score(pw) < 5 && !c.special)
      && ("- Make your password 12 characters long." in out <==> Score(pw) < 5 && |pw| < 12)
  {
    var c := ClassesOf(pw);
    if Score(pw) < 5 {
      assert !(c.lower && c.upper && c.special && c.digit);
      ClassHints(c, Score(pw), |pw|);
      OtherHints(c, Score(pw), |pw|);
    }
  }

  /** The five hints are five different lines. */
  lemma HintsDiffer()
    ensures var hints := ["- Add some lowercase letters.", "- Add some uppercase letters.", "- Add some numbers.",
                          "- Add some special characters.", "- Make your password 12 characters long."];
      forall i, j :: 0 <= i < j < |hints| ==> hints[i] != hints[j]
  {
    var hints := ["- Add some lowercase letters.", "- Add some uppercase letters.", "- Add some numbers.",
                  "- Add some special characters.", "- Make your password 12 characters long."];
    assert hints[0][11] == 'l' && hints[1][11] == 'u' && hints[2][11] == 'n' && hints[3][11] == 's';
    assert hints[4][2] == 'M' && hints[0][2] == 'A' && hints[1][2] == 'A' && hints[2][2] == 'A' && hints[3][2] == 'A';
  }

  /** Below five the lower-case hint is listed iff lower case is missing,
      the digit hint iff digits are missing, and a missing class lists at
      least one hint. */
  lemma ClassHints(c: Classes, score: nat, len: nat)
    requires score < 5
    ensures var out := Suggestions(c, score, len);
      && (!(c.lower && c.upper && c.special && c.digit) ==> |out| >= 1)
      && ("- Add some lowercase letters." in out <==> !c.lower)
      && ("- Add some numbers." in out <==> !c.digit)
  {
    var lower, upper, digits := "- Add some lowercase letters.", "- Add some uppercase letters.", "- Add some numbers.";
    var special, long := "- Add some special characters.", "- Make your password 12 characters long.";
    HintsDiffer();
    var a := if !c.lower then [lower] else [];
    var b := if !c.upper then [upper] else [];
    var d := if !c.digit then [digits] else [];
    var e := if !c.special then [special] else [];
    var f := if len < 12 then [long] else [];
    var out := Suggestions(c, score, len);
    assert out == a + b + d + e + f;
    assert lower in out <==> !c.lower by {
      assert lower !in b + d + e + f;
    }
    assert digits in out <==> !c.digit by {
      assert digits !in a + b + e + f;
    }
  }

  /** Below five the upper-case hint is listed iff upper case is missing,
      the special-character hint iff specials are missing, and the length
      hint iff the password is shorter than twelve. */
  lemma OtherHints(c: Classes, score: nat, len: nat)
    requires score < 5
    ensures var out := Suggestions(c, score, len);
      && ("- Add some uppercase letters." in out <==> !c.upper)
      && ("- Add some special characters." in out <==> !c.special)
      && ("- Make your password 12 characters long." in out <==> len < 12)
  {
    var lower, upper, digits := "- Add some lowercase letters.", "- Add some uppercase letters.", "- Add some numbers.";
    var special, long := "- Add some special characters.", "- Make your password 12 characters long.";
    HintsDiffer();
    var a := if !c.lower then [lower] else [];
    var b := if !c.upper then [upper] else [];
    var d := if !c.digit then [digits] else [];
    var e := if !c.special then [special] else [];
    var f := if len < 12 then [long] else [];
    var out := Suggestions(c, score, len);
    assert out == a + b + d + e + f;
    assert upper in out <==> !c.upper by {
      assert upper !in a + d + e + f;
    }
    assert special in out <==> !c.special by {
      assert special !in a + b + d + f;
    }
    assert long in out <==> len < 12 by {
      assert long !in a + b + d + e;
    }
  }

  /** A class present in a password stays present when it grows. */
  lemma HasGrows(pw: string, x: char, cls: string)
    requires Has(pw, cls)
    ensures Has(pw + [x], cls)
  {
    var k :| 0 <= k < |pw| && pw[k] in cls;
    assert (pw + [x])[k] == pw[k];
  }

  /** With the corrected bonus a longer password never scores lower. */
  lemma ScoreGrows(pw: string, x: char)
    ensures Score(pw + [x]) >= Score(pw)
  {
    if Has(pw, Lower) { HasGrows(pw, x, Lower); }
    if Has(pw, Upper) { HasGrows(pw, x, Upper); }
    if Has(pw, Specials) { HasGrows(pw, x, Specials); }
    if Has(pw, Digits) { HasGrows(pw, x, Digits); }
  }

  /** A password of lower-case letters only raises just the lower-case flag. */
  lemma OnlyLower(pw: string)
    requires pw != [] && forall k :: 0 <= k < |pw| ==> IsLower(pw[k])
    ensures ClassesOf(pw) == Classes(true, false, false, false)
  {
    ClassMembers(pw[0]);
    assert pw[0] in Lower;
    forall k | 0 <= k < |pw|
      ensures pw[k] !in Upper && pw[k] !in Specials && pw[k] !in Digits
    {
      ClassMembers(pw[k]);
      SpecialsArePunct(pw[k]);
    }
  }

  /** Every special character is ASCII punctuation. */
  lemma SpecialsArePunct(c: char)
    ensures c in Specials ==> IsPunct(c)
  {
    if c in Specials {
      var i :| 0 <= i < |Specials| && Specials[i] == c;
      assert IsPunct(Specials[i]);
    }
  }

  /** As written, the eighth character lowers the score: seven lower-case
      letters score 3 ("Ok"), eight score 2 ("Weak"). */
  lemma LongerScoresLowerAsWritten()
    ensures ScoreAsWritten("abcdefg") == 3 && ScoreAsWritten("abcdefgh") == 2
    ensures Verdict(ScoreAsWritten("abcdefg")) == "Password Security = Ok"
    ensures Verdict(ScoreAsWritten("abcdefgh")) == "Password Security = Weak"
  {
    OnlyLower("abcdefg");
    OnlyLower("abcdefgh");
  }

  /** `activate`'s choice 2: a password of 100 characters or more is refused
      (and the menu asked again) before any scoring; a shorter one is
      checked. */
  method CheckEntry(pw: string) returns (r: Option<Report>)
    ensures r.None? <==> |pw| >= 100
    ensures r.Some? ==> r.value.classes == ClassesOf(pw) && r.value.score == Score(pw)
  {
    if |pw| < 100 {
      var report := CheckPass(pw);
      return Some(report);
    }
    return None;
  }
}
