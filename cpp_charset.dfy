/** Charset detection of the C++ crackers. The target is scanned once; for each
    character, five tests run in turn, and each appends to the charset when the
    character is of its class and the class is not in the charset yet:
    lower case, upper case and digits as whole blocks (`find_first_of` over the
    block), punctuation either as the 29-character block of c++_cracker_CPU.cpp
    (`find` of the whole block) or, in c++_cracker_CPU.c++ and
    password_cracker_CPU.c++, the punctuation character itself, and any
    `isspace` character as one blank. */
module CppAlphabet {
  import opened Keyspace
  import opened Alphabet

  /** No character of s is a character of cls (`s.find_first_of(cls) == npos`). */
  predicate NoneOf(s: string, cls: string)
  {
    forall k :: 0 <= k < |s| ==> s[k] !in cls
  }

  /** `s.find(sub) != npos`. */
  predicate Contains(s: string, sub: string)
  {
    exists i :: 0 <= i <= |s| && OccursAt(s, sub, i)
  }

  /** sub occurs in s at position i. */
  predicate OccursAt(s: string, sub: string, i: nat)
  {
    i + |sub| <= |s| && s[i..i + |sub|] == sub
  }

  /** One pass of the loop body: the five tests on the character x. `perChar`
      selects the per-character punctuation test. */
  function CppStep(s: string, x: char, perChar: bool): string
  {
    var s1 := if IsLower(x) && NoneOf(s, Lower) then s + Lower else s;
    var s2 := if IsUpper(x) && NoneOf(s1, Upper) then s1 + Upper else s1;
    var s3 := if IsDigit(x) && NoneOf(s2, Digits) then s2 + Digits else s2;
    var s4 :=
      if perChar then (if IsPunct(x) && x !in s3 then s3 + [x] else s3)
      else (if IsPunct(x) && !Contains(s3, CppPunctuation) then s3 + CppPunctuation else s3);
    if IsSpace(x) && ' ' !in s4 then s4 + " " else s4
  }

  /** The charset after scanning all of t. */
  function CppCharset(t: string, perChar: bool): string
    decreases |t|
  {
    if t == [] then [] else CppStep(CppCharset(t[..|t| - 1], perChar), t[|t| - 1], perChar)
  }

  /** The scan loop of `main` (c++_cracker_CPU.cpp with `perChar` false, the two
      .c++ crackers with `perChar` true). */
  method DetectCppCharset(target: string, perChar: bool) returns (charset: string)
    ensures charset == CppCharset(target, perChar)
  {
    charset := "";
    var i := 0;
    while i < |target|
      invariant i <= |target|
      invariant charset == CppCharset(target[..i], perChar)
    {
      var c := target[i];
      assert target[..i + 1][..i] == target[..i];
      if IsLower(c) && NoneOf(charset, Lower) {
        charset := charset + Lower;
      }
      if IsUpper(c) && NoneOf(charset, Upper) {
        charset := charset + Upper;
      }
      if IsDigit(c) && NoneOf(charset, Digits) {
        charset := charset + Digits;
      }
      if perChar {
        if IsPunct(c) && c !in charset {
          charset := charset + [c];
        }
      } else {
        if IsPunct(c) && !Contains(charset, CppPunctuation) {
          charset := charset + CppPunctuation;
        }
      }
      if IsSpace(c) && ' ' !in charset {
        charset := charset + " ";
      }
      i := i + 1;
    }
    assert target[..i] == target;
  }

  /** Whether the target character x makes the scan put c into the charset. */
  predicate Contributes(x: char, c: char, perChar: bool)
  {
    (IsLower(x) && IsLower(c)) || (IsUpper(x) && IsUpper(c)) || (IsDigit(x) && IsDigit(c))
    || (IsPunct(x) && (if perChar then c == x else c in CppPunctuation))
    || (IsSpace(x) && c == ' ')
  }

  /** Some character of t contributes c. */
  predicate Contributed(t: string, c: char, perChar: bool)
  {
    exists k :: 0 <= k < |t| && Contributes(t[k], c, perChar)
  }

  /** A character the scan recognises at all. */
  predicate Classified(x: char)
  {
    IsLower(x) || IsUpper(x) || IsDigit(x) || IsPunct(x) || IsSpace(x)
  }

  /** What holds of the charset after scanning t: it holds exactly the
      contributed characters, once each, and in block mode the punctuation
      block is in it once any punctuation has been seen. */
  predicate ScanState(s: string, t: string, perChar: bool)
  {
    (forall c :: c in s <==> Contributed(t, c, perChar))
    && Distinct(s)
    && (!perChar && (exists k :: 0 <= k < |t| && IsPunct(t[k])) ==> Contains(s, CppPunctuation))
  }

  lemma ContributedSnoc(t: string, x: char, c: char, perChar: bool)
    ensures Contributed(t + [x], c, perChar) <==> Contributed(t, c, perChar) || Contributes(x, c, perChar)
  {
    var u := t + [x];
    if Contributed(t, c, perChar) {
      var k :| 0 <= k < |t| && Contributes(t[k], c, perChar);
      assert u[k] == t[k];
    }
    if Contributes(x, c, perChar) {
      assert u[|t|] == x;
    }
    if Contributed(u, c, perChar) {
      var k :| 0 <= k < |u| && Contributes(u[k], c, perChar);
      if k < |t| {
        assert u[k] == t[k];
      }
    }
  }

  lemma ContainsAppend(s: string, u: string, sub: string)
    requires Contains(s, sub)
    ensures Contains(s + u, sub)
  {
    var i :| 0 <= i <= |s| && OccursAt(s, sub, i);
    assert (s + u)[i..i + |sub|] == s[i..i + |sub|];
    assert OccursAt(s + u, sub, i);
  }

  lemma ContainsSuffix(s: string, sub: string)
    ensures Contains(s + sub, sub)
  {
    assert (s + sub)[|s|..|s| + |sub|] == sub;
    assert OccursAt(s + sub, sub, |s|);
  }

  lemma ContainsFirst(s: string, sub: string)
    requires Contains(s, sub) && sub != []
    ensures sub[0] in s
  {
    var i :| 0 <= i <= |s| && OccursAt(s, sub, i);
    assert s[i] == s[i..i + |sub|][0];
  }

  /** The only character contributing a letter, digit, C++ punctuation
      character or blank is one of the same class. */
  lemma ContributorClass(x: char, c: char, perChar: bool)
    requires Contributes(x, c, perChar)
    ensures IsLower(c) ==> IsLower(x)
    ensures IsUpper(c) ==> IsUpper(x)
    ensures IsDigit(c) ==> IsDigit(x)
    ensures c in CppPunctuation ==> IsPunct(x)
    ensures c == ' ' ==> IsSpace(x)
  {
    CppPunctuationMember(c);
  }

  /** A block already in the charset was contributed by some character of its
      class, which contributes every member of the block. */
  lemma BlockSeen(s: string, t: string, perChar: bool, cls: string, j: nat)
    requires ScanState(s, t, perChar)
    requires cls == Lower || cls == Upper || cls == Digits
    requires j < |s| && s[j] in cls
    ensures forall c :: c in cls ==> Contributed(t, c, perChar)
  {
    ClassMembers(s[j]);
    assert s[j] in s;
    var k :| 0 <= k < |t| && Contributes(t[k], s[j], perChar);
    ContributorClass(t[k], s[j], perChar);
    forall c | c in cls
      ensures Contributed(t, c, perChar)
    {
      ClassMembers(c);
      assert Contributes(t[k], c, perChar);
    }
  }

  /** Appending a block that shares no character with the charset, which the
      character x contributes exactly. */
  lemma AppendBlock(s: string, t: string, x: char, perChar: bool, cls: string)
    requires ScanState(s, t, perChar)
    requires Distinct(cls) && NoneOf(s, cls)
    requires forall c :: Contributes(x, c, perChar) <==> c in cls
    requires !perChar && IsPunct(x) ==> cls == CppPunctuation
    ensures ScanState(s + cls, t + [x], perChar)
  {
    var u := s + cls;
    forall c
      ensures c in u <==> Contributed(t + [x], c, perChar)
    {
      ContributedSnoc(t, x, c, perChar);
    }
    DistinctConcat(s, cls);
    if !perChar && exists k :: 0 <= k < |t + [x]| && IsPunct((t + [x])[k]) {
      var k :| 0 <= k < |t + [x]| && IsPunct((t + [x])[k]);
      if k < |t| {
        assert (t + [x])[k] == t[k];
        ContainsAppend(s, cls, CppPunctuation);
      } else {
        ContainsSuffix(s, CppPunctuation);
      }
    }
  }

  /** Keeping the charset when x contributes nothing new. */
  lemma KeepCharset(s: string, t: string, x: char, perChar: bool)
    requires ScanState(s, t, perChar)
    requires forall c :: Contributes(x, c, perChar) ==> Contributed(t, c, perChar)
    requires !perChar && IsPunct(x) ==> Contains(s, CppPunctuation)
    ensures ScanState(s, t + [x], perChar)
  {
    forall c
      ensures c in s <==> Contributed(t + [x], c, perChar)
    {
      ContributedSnoc(t, x, c, perChar);
    }
    if !perChar && exists k :: 0 <= k < |t + [x]| && IsPunct((t + [x])[k]) {
      var k :| 0 <= k < |t + [x]| && IsPunct((t + [x])[k]);
      if k < |t| {
        assert (t + [x])[k] == t[k];
      }
    }
  }

  /** One loop pass keeps the scan state. */
  lemma StepKeeps(s: string, t: string, x: char, perChar: bool)
    requires ScanState(s, t, perChar)
    ensures ScanState(CppStep(s, x, perChar), t + [x], perChar)
  {
    if IsLower(x) || IsUpper(x) || IsDigit(x) {
      var cls := if IsLower(x) then Lower else if IsUpper(x) then Upper else Digits;
      StepBlock(s, t, x, perChar, cls);
    } else if IsPunct(x) {
      if perChar {
        StepPunctChar(s, t, x);
      } else {
        StepPunctBlock(s, t, x);
      }
    } else if IsSpace(x) {
      assert CppStep(s, x, perChar) == if ' ' !in s then s + " " else s;
      if ' ' !in s {
        AppendBlock(s, t, x, perChar, " ");
      } else {
        KeepCharset(s, t, x, perChar);
      }
    } else {
      assert CppStep(s, x, perChar) == s;
      KeepCharset(s, t, x, perChar);
    }
  }

  /** A letter or digit appends its block unless the block is there already. */
  lemma StepBlock(s: string, t: string, x: char, perChar: bool, cls: string)
    requires ScanState(s, t, perChar)
    requires cls == (if IsLower(x) then Lower else if IsUpper(x) then Upper else Digits)
    requires IsLower(x) || IsUpper(x) || IsDigit(x)
    ensures ScanState(CppStep(s, x, perChar), t + [x], perChar)
  {
    assert CppStep(s, x, perChar) == if NoneOf(s, cls) then s + cls else s;
    forall c
      ensures Contributes(x, c, perChar) <==> c in cls
    {
      ClassMembers(c);
    }
    if NoneOf(s, cls) {
      ClassesDistinct();
      AppendBlock(s, t, x, perChar, cls);
    } else {
      var j :| 0 <= j < |s| && s[j] in cls;
      BlockSeen(s, t, perChar, cls, j);
      KeepCharset(s, t, x, perChar);
    }
  }

  /** A punctuation character is appended by itself unless it is there already. */
  lemma StepPunctChar(s: string, t: string, x: char)
    requires ScanState(s, t, true) && IsPunct(x)
    ensures ScanState(CppStep(s, x, true), t + [x], true)
  {
    assert CppStep(s, x, true) == if x !in s then s + [x] else s;
    if x !in s {
      AppendBlock(s, t, x, true, [x]);
    } else {
      KeepCharset(s, t, x, true);
    }
  }

  /** Punctuation appends the C++ punctuation block unless the block occurs in
      the charset already. */
  lemma StepPunctBlock(s: string, t: string, x: char)
    requires ScanState(s, t, false) && IsPunct(x)
    ensures ScanState(CppStep(s, x, false), t + [x], false)
  {
    var cs := CppPunctuation;
    assert CppStep(s, x, false) == if !Contains(s, cs) then s + cs else s;
    if !Contains(s, cs) {
      forall j | 0 <= j < |s|
        ensures s[j] !in cs
      {
        if s[j] in cs {
          assert s[j] in s;
          var k :| 0 <= k < |t| && Contributes(t[k], s[j], false);
          ContributorClass(t[k], s[j], false);
          assert false;
        }
      }
      CppPunctuationDistinct();
      AppendBlock(s, t, x, false, cs);
    } else {
      ContainsFirst(s, cs);
      var k :| 0 <= k < |t| && Contributes(t[k], cs[0], false);
      ContributorClass(t[k], cs[0], false);
      forall c | Contributes(x, c, false)
        ensures Contributed(t, c, false)
      {
        assert Contributes(t[k], c, false);
      }
      KeepCharset(s, t, x, false);
    }
  }

  /** The scan state holds after every prefix of the target. */
  lemma {:induction false} ScanStateHolds(t: string, perChar: bool)
    ensures ScanState(CppCharset(t, perChar), t, perChar)
    decreases |t|
  {
    if t == [] {
      assert CppCharset(t, perChar) == [];
    } else {
      var p := t[..|t| - 1];
      ScanStateHolds(p, perChar);
      StepKeeps(CppCharset(p, perChar), p, t[|t| - 1], perChar);
      assert p + [t[|t| - 1]] == t;
    }
  }

  /** A character is in the charset iff some character of the target
      contributes it. */
  lemma CppCharsetMember(t: string, perChar: bool, c: char)
    ensures c in CppCharset(t, perChar) <==> Contributed(t, c, perChar)
  {
    ScanStateHolds(t, perChar);
  }

  /** The charset holds no character twice, so no guess is made twice. */
  lemma CppCharsetDistinct(t: string, perChar: bool)
    ensures Distinct(CppCharset(t, perChar))
  {
    ScanStateHolds(t, perChar);
  }

  /** The characters a scan can find: printable ASCII, and in block mode
      not the three punctuation characters the block lacks. */
  predicate Findable(c: char, perChar: bool)
  {
    Printable(c) && (perChar || (c != '"' && c != '\\' && c != '`'))
  }

  /** The target is a word over its charset iff every character of it is
      findable: a tab or newline puts a blank into the charset but is itself
      never tried. */
  lemma CppCharsetCovers(t: string, perChar: bool)
    ensures Over(CppCharset(t, perChar), t) <==> forall k :: 0 <= k < |t| ==> Findable(t[k], perChar)
  {
    ScanStateHolds(t, perChar);
    forall k | 0 <= k < |t|
      ensures t[k] in CppCharset(t, perChar) <==> Findable(t[k], perChar)
    {
      var c := t[k];
      CppPunctuationMember(c);
      if Findable(c, perChar) {
        assert Contributes(c, c, perChar);
      }
      if Contributed(t, c, perChar) {
        var j :| 0 <= j < |t| && Contributes(t[j], c, perChar);
      }
    }
  }

  /** The charset is empty, and c++_cracker_CPU.cpp exits with status 1, iff no
      character of the target is recognised. */
  lemma CppCharsetEmpty(t: string, perChar: bool)
    ensures CppCharset(t, perChar) == [] <==> forall k :: 0 <= k < |t| ==> !Classified(t[k])
  {
    ScanStateHolds(t, perChar);
    var cs := CppCharset(t, perChar);
    if exists k :: 0 <= k < |t| && Classified(t[k]) {
      var k :| 0 <= k < |t| && Classified(t[k]);
      var x := t[k];
      var c := if IsLower(x) then 'a' else if IsUpper(x) then 'A' else if IsDigit(x) then '0'
        else if IsPunct(x) then (if perChar then x else '~') else ' ';
      assert Contributes(x, c, perChar);
      assert c in cs;
    }
    if cs != [] {
      assert cs[0] in cs;
      var k :| 0 <= k < |t| && Contributes(t[k], cs[0], perChar);
      assert Classified(t[k]);
    }
  }

  /** The scan only appends: the charset of a prefix of the target is a
      prefix of the charset, so classes stand in the order in which their
      first character occurs in the target. */
  lemma {:induction false} CppCharsetGrows(t: string, i: nat, perChar: bool)
    requires i <= |t|
    ensures CppCharset(t[..i], perChar) <= CppCharset(t, perChar)
    decreases |t| - i
  {
    if i == |t| {
      assert t[..i] == t;
    } else {
      var p := t[..|t| - 1];
      CppCharsetGrows(p, i, perChar);
      assert p[..i] == t[..i];
      StepGrows(CppCharset(p, perChar), t[|t| - 1], perChar);
    }
  }

  /** One pass of the loop only appends to the charset. */
  lemma StepGrows(s: string, x: char, perChar: bool)
    ensures s <= CppStep(s, x, perChar)
  {
    var s1 := if IsLower(x) && NoneOf(s, Lower) then s + Lower else s;
    var s2 := if IsUpper(x) && NoneOf(s1, Upper) then s1 + Upper else s1;
    var s3 := if IsDigit(x) && NoneOf(s2, Digits) then s2 + Digits else s2;
    assert s <= s1 <= s2 <= s3;
  }

  /** Classes stand in the order of first occurrence, not in the Python
      crackers' fixed order: a digit before a letter puts the digits first. */
  lemma FirstOccurrenceOrder()
    ensures CppCharset("1a", false) == Digits + Lower
  {
    var t := "1a";
    assert t[..1] == "1" && t[..1][..0] == [];
    assert CppCharset("1", false) == Digits by {
      assert NoneOf([], Digits);
      assert CppCharset([], false) == [];
    }
    assert NoneOf(Digits, Lower) by {
      forall k | 0 <= k < |Digits|
        ensures Digits[k] !in Lower
      {
        ClassMembers(Digits[k]);
      }
    }
    assert CppStep(Digits, 'a', false) == Digits + Lower;
  }





  /** The C++ punctuation block holds no character twice. */
  lemma CppPunctuationDistinct()
    ensures Distinct(CppPunctuation)
  {
    var s := CppPunctuation;
    forall i | 0 <= i < |s|
      ensures PunctPosition(s[i]) == i
    {
      if i < 10 {
        assert i == 0 || i == 1 || i == 2 || i == 3 || i == 4 || i == 5 || i == 6 || i == 7 || i == 8 || i == 9;
      } else if i < 20 {
        assert i == 10 || i == 11 || i == 12 || i == 13 || i == 14 || i == 15 || i == 16 || i == 17 || i == 18 || i == 19;
      } else {
        assert i == 20 || i == 21 || i == 22 || i == 23 || i == 24 || i == 25 || i == 26 || i == 27 || i == 28;
      }
    }
  }

  /** Position of a character in the C++ punctuation block, -1 for none. */
  function PunctPosition(c: char): int
  {
    if c == '~' then 0 else if c == '!' then 1 else if c == '@' then 2 else if c == '#' then 3
    else if c == '$' then 4 else if c == '%' then 5 else if c == '^' then 6 else if c == '&' then 7
    else if c == '*' then 8 else if c == '(' then 9 else if c == ')' then 10 else if c == '-' then 11
    else if c == '_' then 12 else if c == '=' then 13 else if c == '+' then 14 else if c == '[' then 15
    else if c == ']' then 16 else if c == '{' then 17 else if c == '}' then 18 else if c == '|' then 19
    else if c == ';' then 20 else if c == ':' then 21 else if c == '\'' then 22 else if c == ',' then 23
    else if c == '.' then 24 else if c == '<' then 25 else if c == '>' then 26 else if c == '?' then 27
    else if c == '/' then 28 else -1
  }
}
