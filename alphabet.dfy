/** Charset detection: every cracker searches over the union of the character
    classes that occur in the target. The Python crackers join the classes in
    a fixed order, the GUI leaves out the space class, and the C++ crackers
    append a class when its first member is met while scanning the target,
    either as one block or (punctuation in two of them) one character at a
    time. Character classification is the C locale's, on ASCII. */
module Alphabet {
  import opened Keyspace

  const Lower: string := "abcdefghijklmnopqrstuvwxyz"
  const Upper: string := "ABCDEFGHIJKLMNOPQRSTUVWXYZ"
  const Digits: string := "0123456789"
  /** Python's `string.punctuation`: the 32 ASCII punctuation characters. */
  const Punctuation: string := "!\"#$%&'()*+,-./:;<=>?@[\\]^_`{|}~"
  /** The punctuation block of c++_cracker_CPU.cpp: 29 characters, without
      the double quote, the backslash and the backquote. */
  const CppPunctuation: string := "~!@#$%^&*()-_=+[]{}|;:',.<>?/"

  predicate IsLower(c: char) { 'a' <= c <= 'z' }
  predicate IsUpper(c: char) { 'A' <= c <= 'Z' }
  predicate IsDigit(c: char) { '0' <= c <= '9' }
  predicate IsPunct(c: char) { ('!' <= c <= '/') || (':' <= c <= '@') || ('[' <= c <= '`') || ('{' <= c <= '~') }
  /** `isspace`: the blank and the five control characters tab to carriage return. */
  predicate IsSpace(c: char) { c == ' ' || '\t' <= c <= '\r' }

  /** Printable ASCII: exactly the characters some Python class holds. */
  predicate Printable(c: char) { ' ' <= c <= '~' }

  /** n consecutive code points starting at lo. */
  function CharRange(lo: char, n: nat): (r: string)
    requires lo as int + n <= 0xD800
    ensures |r| == n
  {
    seq(n, i requires 0 <= i < n => (lo as int + i) as char)
  }

  lemma CharRangeMember(lo: char, n: nat, c: char)
    requires lo as int + n <= 0xD800
    ensures c in CharRange(lo, n) <==> lo <= c && (c as int) < lo as int + n
  {
    var r := CharRange(lo, n);
    if lo <= c && (c as int) < lo as int + n {
      assert r[c as int - lo as int] == c;
    }
  }

  lemma CharRangeDistinct(lo: char, n: nat)
    requires lo as int + n <= 0xD800
    ensures Distinct(CharRange(lo, n))
  {
  }

  /** The class strings are the ASCII code ranges of the classification. */
  lemma ClassRanges()
    ensures Lower == CharRange('a', 26)
    ensures Upper == CharRange('A', 26)
    ensures Digits == CharRange('0', 10)
    ensures Punctuation == CharRange('!', 15) + CharRange(':', 7) + CharRange('[', 6) + CharRange('{', 4)
  {
  }

  /** Membership in each class string is the classification of the character. */
  lemma ClassMembers(c: char)
    ensures c in Lower <==> IsLower(c)
    ensures c in Upper <==> IsUpper(c)
    ensures c in Digits <==> IsDigit(c)
    ensures c in Punctuation <==> IsPunct(c)
  {
    ClassRanges();
    CharRangeMember('a', 26, c);
    CharRangeMember('A', 26, c);
    CharRangeMember('0', 10, c);
    CharRangeMember('!', 15, c);
    CharRangeMember(':', 7, c);
    CharRangeMember('[', 6, c);
    CharRangeMember('{', 4, c);
  }

  /** No class string repeats a character. */
  lemma ClassesDistinct()
    ensures Distinct(Lower) && Distinct(Upper) && Distinct(Digits) && Distinct(Punctuation)
  {
    ClassRanges();
    CharRangeDistinct('a', 26);
    CharRangeDistinct('A', 26);
    CharRangeDistinct('0', 10);
    PunctuationDistinct();
  }

  /** The four ASCII runs that make up the punctuation class are disjoint. */
  lemma PunctuationDistinct()
    ensures Distinct(CharRange('!', 15) + CharRange(':', 7) + CharRange('[', 6) + CharRange('{', 4))
  {
    var a, b, c, d := CharRange('!', 15), CharRange(':', 7), CharRange('[', 6), CharRange('{', 4);
    forall x | x in a ensures x !in b + c + d {
      CharRangeMember('!', 15, x);
      CharRangeMember(':', 7, x);
      CharRangeMember('[', 6, x);
      CharRangeMember('{', 4, x);
    }
    forall x | x in b ensures x !in c + d {
      CharRangeMember(':', 7, x);
      CharRangeMember('[', 6, x);
      CharRangeMember('{', 4, x);
    }
    forall x | x in c ensures x !in d {
      CharRangeMember('[', 6, x);
      CharRangeMember('{', 4, x);
    }
    DistinctConcat(c, d);
    DistinctConcat(b, c + d);
    DistinctConcat(a, b + c + d);
    assert a + b + c + d == a + (b + (c + d));
  }

  /** Two strings without repeats and without a common character concatenate
      to a string without repeats. */
  lemma DistinctConcat(a: string, b: string)
    requires Distinct(a) && Distinct(b)
    requires forall x :: x in a ==> x !in b
    ensures Distinct(a + b)
  {
    var s := a + b;
    forall i, j | 0 <= i < j < |s|
      ensures s[i] != s[j]
    {
      if i < |a| && j >= |a| {
        assert s[i] in a && s[j] == b[j - |a|];
      }
    }
  }

  /** Every character of the C++ punctuation block is punctuation. */
  lemma CppPunctuationIsPunct()
    ensures forall i :: 0 <= i < |CppPunctuation| ==> IsPunct(CppPunctuation[i])
  {
    forall i | 0 <= i < |CppPunctuation|
      ensures IsPunct(CppPunctuation[i])
    {
      if i < 10 {
        assert i == 0 || i == 1 || i == 2 || i == 3 || i == 4 || i == 5 || i == 6 || i == 7 || i == 8 || i == 9;
      } else if i < 20 {
        assert i == 10 || i == 11 || i == 12 || i == 13 || i == 14 || i == 15 || i == 16 || i == 17 || i == 18 || i == 19;
      } else {
        assert i == 20 || i == 21 || i == 22 || i == 23 || i == 24 || i == 25 || i == 26 || i == 27 || i == 28;
      }
    }
  }

  /** The C++ punctuation block holds every punctuation character except the
      double quote, the backslash and the backquote. */
  lemma CppPunctuationMember(c: char)
    ensures c in CppPunctuation <==> IsPunct(c) && c != '"' && c != '\\' && c != '`'
  {
    CppPunctuationIsPunct();
  }

  // ---------------------------------------------------------------------
  // Python's str.strip()

  /** `str.isspace()`: the ASCII blank and controls tab to carriage return and
      the file, group, record and unit separators, and the Unicode spaces and
      line and paragraph separators. */
  predicate PyIsSpace(c: char)
  {
    IsSpace(c) || ('\U{1C}' <= c <= '\U{1F}') || c == '\U{85}' || c == '\U{A0}' || c == '\U{1680}'
    || ('\U{2000}' <= c <= '\U{200A}') || c == '\U{2028}' || c == '\U{2029}' || c == '\U{202F}'
    || c == '\U{205F}' || c == '\U{3000}'
  }

  /** `lstrip()`: the suffix after the leading white space. */
  function StripLeft(s: string): (r: string)
    ensures |r| <= |s| && r == s[|s| - |r|..]
    ensures forall k :: 0 <= k < |s| - |r| ==> PyIsSpace(s[k])
    ensures r == [] || !PyIsSpace(r[0])
  {
    if s != [] && PyIsSpace(s[0]) then StripLeft(s[1..]) else s
  }

  /** `rstrip()`: the prefix before the trailing white space. */
  function StripRight(s: string): (r: string)
    ensures |r| <= |s| && r == s[..|r|]
    ensures forall k :: |r| <= k < |s| ==> PyIsSpace(s[k])
    ensures r == [] || !PyIsSpace(r[|r| - 1])
  {
    if s != [] && PyIsSpace(s[|s| - 1]) then StripRight(s[..|s| - 1]) else s
  }

  /** `strip()`, applied to every password read: the result neither starts
      nor ends with white space. */
  function Strip(s: string): (r: string)
    ensures r == [] || (!PyIsSpace(r[0]) && !PyIsSpace(r[|r| - 1]))
  {
    var l := StripLeft(s);
    var r := StripRight(l);
    assert r == [] || r[0] == l[0];
    r
  }

  /** The stripped string is a slice of the input with only white space cut
      off either end. */
  lemma StripSlice(s: string)
    ensures exists i, j :: (0 <= i <= j <= |s| && Strip(s) == s[i..j]
      && (forall k :: 0 <= k < i ==> PyIsSpace(s[k])) && (forall k :: j <= k < |s| ==> PyIsSpace(s[k])))
  {
    var l := StripLeft(s);
    var r := StripRight(l);
    var i := |s| - |l|;
    var j := i + |r|;
    assert r == s[i..j] by {
      assert l == s[i..] && r == l[..|r|];
    }
    assert forall k :: j <= k < |s| ==> PyIsSpace(s[k]) by {
      forall k | j <= k < |s|
        ensures PyIsSpace(s[k])
      {
        assert s[k] == l[k - i];
      }
    }
    assert Strip(s) == r;
    assert 0 <= i <= j <= |s| && Strip(s) == s[i..j]
      && (forall k :: 0 <= k < i ==> PyIsSpace(s[k])) && (forall k :: j <= k < |s| ==> PyIsSpace(s[k]));
  }

  // ---------------------------------------------------------------------
  // Python: classes joined in a fixed order

  /** `any(c in s for c in target)`. */
  predicate Present(cls: string, t: string)
  {
    exists k :: 0 <= k < |t| && t[k] in cls
  }

  /** A class string if it occurs in the target, nothing otherwise. */
  function Piece(cls: string, t: string): string
  {
    if Present(cls, t) then cls else []
  }

  /** The classes that are present, joined in the order given. */
  function JoinPresent(classes: seq<string>, t: string): string
  {
    if classes == [] then [] else Piece(classes[0], t) + JoinPresent(classes[1..], t)
  }

  lemma {:induction false} JoinPresentMember(classes: seq<string>, t: string, c: char)
    ensures c in JoinPresent(classes, t) <==> exists i :: 0 <= i < |classes| && c in classes[i] && Present(classes[i], t)
    decreases |classes|
  {
    if classes != [] {
      JoinPresentMember(classes[1..], t, c);
      if c in JoinPresent(classes[1..], t) {
        var i :| 0 <= i < |classes[1..]| && c in classes[1..][i] && Present(classes[1..][i], t);
        assert c in classes[i + 1];
      }
      if exists i :: 0 <= i < |classes| && c in classes[i] && Present(classes[i], t) {
        var i :| 0 <= i < |classes| && c in classes[i] && Present(classes[i], t);
        if i > 0 {
          assert classes[1..][i - 1] == classes[i];
        }
      }
    }
  }

  /** No character belongs to two of the classes. */
  predicate Disjoint(classes: seq<string>)
  {
    forall i, j, x :: 0 <= i < j < |classes| && x in classes[i] ==> x !in classes[j]
  }

  /** Classes without repeats that share no character join to a string
      without repeats. */
  lemma {:induction false} JoinPresentDistinct(classes: seq<string>, t: string)
    requires forall i :: 0 <= i < |classes| ==> Distinct(classes[i])
    requires Disjoint(classes)
    ensures Distinct(JoinPresent(classes, t))
    decreases |classes|
  {
    if classes != [] {
      var head, rest := Piece(classes[0], t), JoinPresent(classes[1..], t);
      assert Disjoint(classes[1..]) by {
        forall i, j, x | 0 <= i < j < |classes[1..]| && x in classes[1..][i]
          ensures x !in classes[1..][j]
        {
          assert classes[1..][i] == classes[i + 1] && classes[1..][j] == classes[j + 1];
        }
      }
      JoinPresentDistinct(classes[1..], t);
      forall x | x in head
        ensures x !in rest
      {
        JoinPresentMember(classes[1..], t, x);
        forall i | 0 <= i < |classes[1..]|
          ensures x !in classes[1..][i]
        {
          assert classes[1..][i] == classes[i + 1];
        }
      }
      DistinctConcat(head, rest);
    }
  }

  /** Index of a character's class among the Python classes, -1 for none. */
  function ClassOf(c: char): int
  {
    if IsLower(c) then 0
    else if IsUpper(c) then 1
    else if IsDigit(c) then 2
    else if IsPunct(c) then 3
    else if c == ' ' then 4
    else -1
  }

  /** The classes of password_cracker_CPU.py and password_cracker.py, in order. */
  const PythonClasses: seq<string> := [Lower, Upper, Digits, Punctuation, " "]

  /** The classes of gui_cracker.py, in order: no space class. */
  const GuiClasses: seq<string> := [Lower, Upper, Digits, Punctuation]

  /** A character is in the i-th Python class iff that is its class. */
  lemma PythonClassesIndex(i: nat, x: char)
    requires i < |PythonClasses|
    ensures x in PythonClasses[i] <==> ClassOf(x) == i
  {
    ClassMembers(x);
    if i == 0 {
    } else if i == 1 {
    } else if i == 2 {
    } else if i == 3 {
    } else {
      assert PythonClasses[i] == " ";
    }
  }

  lemma PythonClassesDisjoint()
    ensures Disjoint(PythonClasses) && Disjoint(GuiClasses)
    ensures forall i :: 0 <= i < |PythonClasses| ==> Distinct(PythonClasses[i])
  {
    assert GuiClasses == PythonClasses[..4];
    forall i, j, x | 0 <= i < j < |PythonClasses| && x in PythonClasses[i]
      ensures x !in PythonClasses[j]
    {
      PythonClassesIndex(i, x);
      PythonClassesIndex(j, x);
    }
    ClassesDistinct();
    forall i | 0 <= i < |PythonClasses|
      ensures Distinct(PythonClasses[i])
    {
      if i == 4 {
        assert PythonClasses[i] == " ";
      }
    }
  }

  /** The charset of the two command-line Python crackers. */
  function CanonicalCharset(t: string): string
  {
    JoinPresent(PythonClasses, t)
  }

  /** A character is in the charset iff it has a class and that class occurs in
      the target. */
  lemma CanonicalCharsetMember(t: string, c: char)
    ensures c in CanonicalCharset(t) <==> 0 <= ClassOf(c) && Present(PythonClasses[ClassOf(c)], t)
  {
    JoinPresentMember(PythonClasses, t, c);
    if c in CanonicalCharset(t) {
      var i :| 0 <= i < |PythonClasses| && c in PythonClasses[i] && Present(PythonClasses[i], t);
      PythonClassesIndex(i, c);
    }
    if 0 <= ClassOf(c) {
      PythonClassesIndex(ClassOf(c), c);
    }
  }

  /** The target is a word over its charset iff all of it is printable ASCII. */
  lemma CanonicalCharsetCovers(t: string)
    ensures Over(CanonicalCharset(t), t) <==> forall k :: 0 <= k < |t| ==> Printable(t[k])
  {
    forall k | 0 <= k < |t|
      ensures t[k] in CanonicalCharset(t) <==> Printable(t[k])
    {
      var c := t[k];
      CanonicalCharsetMember(t, c);
      if 0 <= ClassOf(c) {
        PythonClassesIndex(ClassOf(c), c);
      }
    }
  }

  /** The charset is empty iff no character of the target is printable ASCII. */
  lemma CanonicalCharsetEmpty(t: string)
    ensures CanonicalCharset(t) == [] <==> forall k :: 0 <= k < |t| ==> !Printable(t[k])
  {
    var cs := CanonicalCharset(t);
    if exists k :: 0 <= k < |t| && Printable(t[k]) {
      var k :| 0 <= k < |t| && Printable(t[k]);
      PythonClassesIndex(ClassOf(t[k]), t[k]);
      CanonicalCharsetMember(t, t[k]);
      assert t[k] in cs;
    }
    if cs != [] {
      assert cs[0] in cs;
      CanonicalCharsetMember(t, cs[0]);
      var k :| 0 <= k < |t| && t[k] in PythonClasses[ClassOf(cs[0])];
      PythonClassesIndex(ClassOf(cs[0]), t[k]);
    }
  }

  /** The charset repeats no character, so each guess is made once. */
  lemma CanonicalCharsetDistinct(t: string)
    ensures Distinct(CanonicalCharset(t))
  {
    PythonClassesDisjoint();
    JoinPresentDistinct(PythonClasses, t);
  }

  // ---------------------------------------------------------------------
  // GUI: four classes, classified by islower/isupper/isdigit

  /** `detect_charset`: a class string is appended when some character of the
      password belongs to it. */
  method DetectCharset(password: string) returns (charset: string)
    ensures charset == JoinPresent(GuiClasses, password)
  {
    PresentByClass(password);
    charset := "";
    if exists k | 0 <= k < |password| :: IsLower(password[k]) {
      charset := charset + Lower;
    }
    assert charset == Piece(Lower, password);
    if exists k | 0 <= k < |password| :: IsUpper(password[k]) {
      charset := charset + Upper;
    }
    assert charset == Piece(Lower, password) + Piece(Upper, password);
    if exists k | 0 <= k < |password| :: IsDigit(password[k]) {
      charset := charset + Digits;
    }
    assert charset == Piece(Lower, password) + Piece(Upper, password) + Piece(Digits, password);
    if exists k | 0 <= k < |password| :: password[k] in Punctuation {
      charset := charset + Punctuation;
    }
    assert charset == Piece(Lower, password) + Piece(Upper, password) + Piece(Digits, password) + Piece(Punctuation, password);
    JoinFour(Lower, Upper, Digits, Punctuation, password);
  }

  /** Four classes join in their order. */
  lemma JoinFour(a: string, b: string, c: string, d: string, t: string)
    ensures JoinPresent([a, b, c, d], t) == Piece(a, t) + Piece(b, t) + Piece(c, t) + Piece(d, t)
  {
    var s1, s2, s3 := [b, c, d], [c, d], [d];
    assert JoinPresent(s3, t) == Piece(d, t) by {
      assert s3[1..] == [];
    }
    assert JoinPresent(s2, t) == Piece(c, t) + JoinPresent(s3, t) by {
      assert s2[1..] == s3;
    }
    assert JoinPresent(s1, t) == Piece(b, t) + JoinPresent(s2, t) by {
      assert s1[1..] == s2;
    }
    assert JoinPresent([a, b, c, d], t) == Piece(a, t) + JoinPresent(s1, t) by {
      assert [a, b, c, d][1..] == s1;
    }
  }


  /** The `islower`-style tests agree with membership in the class strings. */
  lemma PresentByClass(t: string)
    ensures Present(Lower, t) <==> exists k :: 0 <= k < |t| && IsLower(t[k])
    ensures Present(Upper, t) <==> exists k :: 0 <= k < |t| && IsUpper(t[k])
    ensures Present(Digits, t) <==> exists k :: 0 <= k < |t| && IsDigit(t[k])
  {
    forall k | 0 <= k < |t| {
      ClassMembers(t[k]);
    }
  }

  /** The GUI charset is the canonical one without the blank: a character is in
      it iff its class is one of the first four and occurs in the password. */
  lemma GuiCharsetMember(t: string, c: char)
    ensures c in JoinPresent(GuiClasses, t) <==> 0 <= ClassOf(c) < 4 && Present(PythonClasses[ClassOf(c)], t)
  {
    JoinPresentMember(GuiClasses, t, c);
    assert GuiClasses == PythonClasses[..4];
    if c in JoinPresent(GuiClasses, t) {
      var i :| 0 <= i < |GuiClasses| && c in GuiClasses[i] && Present(GuiClasses[i], t);
      PythonClassesIndex(i, c);
    }
    if 0 <= ClassOf(c) < 4 {
      PythonClassesIndex(ClassOf(c), c);
    }
  }

  /** The GUI charset never holds the blank, so a password with a blank is
      never a word over it. */
  lemma GuiCharsetNoBlank(t: string)
    ensures ' ' !in JoinPresent(GuiClasses, t)
    ensures ' ' in t ==> !Over(JoinPresent(GuiClasses, t), t)
  {
    GuiCharsetMember(t, ' ');
  }

  /** The printable characters are exactly those of some class, and the
      blank is the only one of the last. */
  lemma ClassOfPrintable(c: char)
    ensures 0 <= ClassOf(c) <==> Printable(c)
    ensures ClassOf(c) == 4 <==> c == ' '
  {
  }

  /** The password is a word over the GUI charset iff it is printable ASCII
      without a blank. */
  lemma GuiCharsetCovers(t: string)
    ensures Over(JoinPresent(GuiClasses, t), t) <==> forall k :: 0 <= k < |t| ==> Printable(t[k]) && t[k] != ' '
  {
    forall k | 0 <= k < |t|
      ensures t[k] in JoinPresent(GuiClasses, t) <==> Printable(t[k]) && t[k] != ' '
    {
      GuiCharsetAt(t, k);
    }
  }

  /** One character of the password is in the GUI charset iff it is a
      printable non-space character. */
  lemma GuiCharsetAt(t: string, k: nat)
    requires k < |t|
    ensures t[k] in JoinPresent(GuiClasses, t) <==> Printable(t[k]) && t[k] != ' '
  {
    var c := t[k];
    GuiCharsetMember(t, c);
    ClassOfPrintable(c);
    if Printable(c) && c != ' ' {
      var i := ClassOf(c);
      assert 0 <= i < 4;
      assert Present(PythonClasses[i], t) by {
        PythonClassesIndex(i, c);
        assert t[k] in PythonClasses[i];
      }
    }
  }


  /** The GUI charset repeats no character. */
  lemma GuiCharsetDistinct(t: string)
    ensures Distinct(JoinPresent(GuiClasses, t))
  {
    PythonClassesDisjoint();
    assert GuiClasses == PythonClasses[..4];
    JoinPresentDistinct(GuiClasses, t);
  }
}
