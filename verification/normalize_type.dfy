/** The binding generator's normalisation of C++ type spellings: a chain of regular-expression
    substitutions on the text. */
module NormalizeType {

  // ---- White space ----

  predicate IsSpace(c: char) {
    c == ' ' || 9 <= c as int <= 13 || 28 <= c as int <= 31 || c as int == 0x85 || c as int == 0xa0
  }

  function StripLeft(s: string): (r: string)
    ensures |r| <= |s| && (r != "" ==> !IsSpace(r[0]))
  {
    if s != "" && IsSpace(s[0]) then StripLeft(s[1..]) else s
  }

  function StripRight(s: string): (r: string)
    ensures |r| <= |s| && (r != "" ==> !IsSpace(r[|r| - 1]))
  {
    if s != "" && IsSpace(s[|s| - 1]) then StripRight(s[..|s| - 1]) else s
  }

  function Strip(s: string): string {
    StripRight(StripLeft(s))
  }

  predicate Trimmed(s: string) {
    s != "" ==> !IsSpace(s[0]) && !IsSpace(s[|s| - 1])
  }

  predicate Blank(s: string) {
    forall i :: 0 <= i < |s| ==> IsSpace(s[i])
  }

  lemma {:induction false} StripLeftBlank(a: string, s: string)
    requires Blank(a)
    ensures StripLeft(a + s) == StripLeft(s)
    decreases |a|
  {
    if a == "" {
      assert a + s == s;
    } else {
      assert (a + s)[1..] == a[1..] + s;
      StripLeftBlank(a[1..], s);
    }
  }

  lemma {:induction false} StripRightBlank(s: string, b: string)
    requires Blank(b)
    ensures StripRight(s + b) == StripRight(s)
    decreases |b|
  {
    if b == "" {
      assert s + b == s;
    } else {
      var k := |b| - 1;
      assert (s + b)[..|s| + k] == s + b[..k];
      StripRightBlank(s, b[..k]);
    }
  }

  /** White space around a trimmed text is what stripping takes off. */
  lemma StripPadding(a: string, s: string, b: string)
    requires Blank(a) && Blank(b) && Trimmed(s)
    ensures Strip(a + s + b) == s
  {
    assert a + s + b == a + (s + b);
    StripLeftBlank(a, s + b);
    if s == "" {
      assert s + b == b && b + "" == b;
      StripLeftBlank(b, "");
    } else {
      assert StripLeft(s + b) == s + b;
      StripRightBlank(s, b);
    }
  }

  /** Stripping cuts white space off the ends. */
  lemma {:induction false} StripLeftIsSuffix(s: string)
    ensures StripLeft(s) == s[|s| - |StripLeft(s)|..]
    ensures forall i :: 0 <= i < |s| - |StripLeft(s)| ==> IsSpace(s[i])
    decreases |s|
  {
    if s != "" && IsSpace(s[0]) {
      StripLeftIsSuffix(s[1..]);
    }
  }

  lemma {:induction false} StripRightIsPrefix(s: string)
    ensures StripRight(s) == s[..|StripRight(s)|]
    ensures forall i :: |StripRight(s)| <= i < |s| ==> IsSpace(s[i])
    decreases |s|
  {
    if s != "" && IsSpace(s[|s| - 1]) {
      StripRightIsPrefix(s[..|s| - 1]);
    }
  }

  lemma StripIsTrimmed(s: string)
    ensures Trimmed(Strip(s)) && |Strip(s)| <= |s|
  {
    var r := StripLeft(s);
    StripRightIsPrefix(r);
    assert Strip(s) != "" ==> Strip(s)[0] == r[0];
  }

  /** p stands in s at position k. */
  predicate PartAt(s: string, p: string, k: nat) {
    k + |p| <= |s| && s[k..k + |p|] == p
  }

  lemma PartOfPart(s: string, p: string, q: string, k: nat, j: nat)
    requires PartAt(s, p, k) && PartAt(p, q, j)
    ensures PartAt(s, q, k + j) && (j > 0 ==> p[j - 1] == s[k + j - 1])
  {
    forall i | 0 <= i < |q| ensures s[k + j + i] == q[i] {
      assert q[i] == p[j..j + |q|][i] == p[j + i] == s[k..k + |p|][j + i];
    }
    if j > 0 {
      assert p[j - 1] == s[k..k + |p|][j - 1];
    }
  }

  /** What is stripped is a part of the text, behind white space if it does not start with it. */
  lemma StripIsPart(s: string) returns (k: nat)
    ensures PartAt(s, Strip(s), k) && (k > 0 ==> IsSpace(s[k - 1]))
  {
    var r := StripLeft(s);
    StripLeftIsSuffix(s);
    StripRightIsPrefix(r);
    k := |s| - |r|;
    assert s[k..][..|Strip(s)|] == s[k..k + |Strip(s)|];
  }

  // ---- The substitutions, in the order in which they are applied ----

  predicate IsWord(c: char) {
    'a' <= c <= 'z' || 'A' <= c <= 'Z' || '0' <= c <= '9' || c == '_'
  }

  predicate StartsConst(s: string) {
    |s| >= 6 && s[0] == 'c' && s[1] == 'o' && s[2] == 'n' && s[3] == 's' && s[4] == 't' && IsSpace(s[5])
  }

  /** Every const at the start of a word goes, with the white space after it.  boundary tells that no
      word character stands before s. */
  function RemoveConst(s: string, boundary: bool): string
    decreases |s|
  {
    if s == "" then ""
    else if boundary && StartsConst(s) then RemoveConst(StripLeft(s[5..]), true)
    else [s[0]] + RemoveConst(s[1..], !IsWord(s[0]))
  }

  /** One reference mark, & or &&, goes from the end, with the white space before it. */
  function StripReference(s: string): (r: string)
    ensures |r| <= |s|
  {
    if s == "" || s[|s| - 1] != '&' then s
    else if |s| > 1 && s[|s| - 2] == '&' then StripRight(s[..|s| - 2])
    else StripRight(s[..|s| - 1])
  }

  /** Each run of white space becomes one blank. */
  function Collapse(s: string): string
    decreases |s|
  {
    if s == "" then ""
    else if IsSpace(s[0]) then " " + Collapse(StripLeft(s[1..]))
    else [s[0]] + Collapse(s[1..])
  }

  /** Each c with the white space around it becomes r. */
  function Tighten(s: string, c: char, r: string): string
    decreases |s|
  {
    if s == "" then ""
    else
      var t := StripLeft(s);
      if t != "" && t[0] == c then r + Tighten(StripLeft(t[1..]), c, r)
      else [s[0]] + Tighten(s[1..], c, r)
  }

  function TightenBracket(s: string, k: char): string {
    Tighten(s, k, [k])
  }

  function SpaceCommas(s: string): string {
    Tighten(s, ',', ", ")
  }

  function Spacing(s: string): string {
    SpaceCommas(TightenBracket(TightenBracket(Collapse(s), '<'), '>'))
  }

  function StripColons(s: string): (r: string)
    ensures |r| <= |s| && (r != "" ==> r[0] != ':')
  {
    if s != "" && s[0] == ':' then StripColons(s[1..]) else s
  }

  function Normalize(s: string): string {
    Strip(StripColons(Spacing(StripReference(RemoveConst(Strip(s), true)))))
  }

  // ---- The spacing steps in one pass ----

  /** Whether white space stands between two characters that are not white space themselves. */
  predicate Gap(x: char, y: char, had: bool) {
    x == ',' || (had && x != '<' && x != '>' && y != '<' && y != '>' && y != ',')
  }

  function Tidy(s: string): string
    decreases |s|
  {
    if |s| <= 1 then s
    else
      var r := StripLeft(s[1..]);
      if r == "" then [s[0]]
      else [s[0]] + (if Gap(s[0], r[0], IsSpace(s[1])) then " " else "") + Tidy(r)
  }

  function End(s: string): string {
    if s != "" && s[|s| - 1] == ',' then " " else ""
  }

  lemma TightenStep(c: char, g: string, x: string, k: char, r: string)
    requires !IsSpace(c) && !IsSpace(k) && (g == "" || g == " ") && x != "" && !IsSpace(x[0])
    ensures Tighten([c] + g + x, k, r) ==
            if c == k then r + Tighten(x, k, r)
            else [c] + (if x[0] == k then "" else g) + Tighten(x, k, r)
  {
    var s := [c] + g + x;
    assert s[0] == c && s[1..] == g + x;
    if c == k {
      StripLeftBlank(g, x);
    } else {
      TightenGap(g, x, k, r);
      ConcatAssoc([c], if x[0] == k then "" else g, Tighten(x, k, r));
    }
  }

  lemma TightenGap(g: string, x: string, k: char, r: string)
    requires (g == "" || g == " ") && x != "" && !IsSpace(x[0])
    ensures Tighten(g + x, k, r) == (if x[0] == k then "" else g) + Tighten(x, k, r)
  {
    assert (g + x)[|g|..] == x;
    StripLeftBlank(g, x);
  }

  lemma ConcatAssoc(a: string, b: string, c: string)
    ensures a + (b + c) == (a + b) + c
  {
  }

  lemma TightenHead(x: string, k: char, r: string)
    requires x != "" && !IsSpace(x[0]) && r != "" && r[0] == k
    ensures Tighten(x, k, r) != "" && Tighten(x, k, r)[0] == x[0]
  {
  }

  lemma CollapseStep(c: char, s: string)
    requires !IsSpace(c) && s != "" && StripLeft(s) != ""
    ensures Collapse([c] + s) == [c] + (if IsSpace(s[0]) then " " else "") + Collapse(StripLeft(s))
    ensures Collapse(StripLeft(s)) != "" && Collapse(StripLeft(s))[0] == StripLeft(s)[0]
  {
    assert ([c] + s)[1..] == s;
    if IsSpace(s[0]) {
      assert StripLeft(s) == StripLeft(s[1..]);
    }
  }

  lemma BracketStep(c: char, g: string, x: string, k: char)
    requires !IsSpace(c) && !IsSpace(k) && (g == "" || g == " ") && x != "" && !IsSpace(x[0])
    ensures TightenBracket([c] + g + x, k) == [c] + (if c == k || x[0] == k then "" else g) + TightenBracket(x, k)
    ensures TightenBracket(x, k) != "" && TightenBracket(x, k)[0] == x[0]
  {
    TightenStep(c, g, x, k, [k]);
    TightenHead(x, k, [k]);
    assert [c] + "" == [c];
  }

  lemma CommaStep(c: char, g: string, x: string)
    requires !IsSpace(c) && (g == "" || g == " ") && x != "" && !IsSpace(x[0])
    ensures SpaceCommas([c] + g + x) ==
            [c] + (if c == ',' then " " else if x[0] == ',' then "" else g) + SpaceCommas(x)
  {
    TightenStep(c, g, x, ',', ", ");
    assert [','] + " " == ", ";
  }

  /** The steps on a character, a gap and the rest. */
  lemma SpacingStep(c: char, g: string, x: string)
    requires !IsSpace(c) && (g == "" || g == " ") && x != "" && !IsSpace(x[0])
    ensures SpaceCommas(TightenBracket(TightenBracket([c] + g + x, '<'), '>'))
            == [c] + (if Gap(c, x[0], g == " ") then " " else "")
               + SpaceCommas(TightenBracket(TightenBracket(x, '<'), '>'))
  {
    BracketStep(c, g, x, '<');
    var g1, y := if c == '<' || x[0] == '<' then "" else g, TightenBracket(x, '<');
    BracketStep(c, g1, y, '>');
    var g2, z := if c == '>' || y[0] == '>' then "" else g1, TightenBracket(y, '>');
    CommaStep(c, g2, z);
  }

  lemma SpacingOne(c: char)
    requires !IsSpace(c)
    ensures Spacing([c]) == [c] + End([c])
  {
    CollapseOne(c);
    TightenOne(c, '<', ['<']);
    TightenOne(c, '>', ['>']);
    TightenOne(c, ',', ", ");
    assert [','] + " " == ", ";
  }

  lemma CollapseOne(c: char)
    requires !IsSpace(c)
    ensures Collapse([c]) == [c]
  {
    assert [c][1..] == "";
  }

  lemma TightenOne(c: char, k: char, r: string)
    requires !IsSpace(c)
    ensures Tighten([c], k, r) == if c == k then r else [c]
  {
    assert [c][1..] == "";
    assert Tighten("", k, r) == "" && r + "" == r;
  }

  /** On trimmed text the spacing steps do what the one pass does, but for a blank after a last comma. */
  lemma {:induction false} SpacingIsTidy(s: string)
    requires Trimmed(s)
    ensures Spacing(s) == Tidy(s) + End(s)
    decreases |s|
  {
    if |s| == 1 {
      SpacingOne(s[0]);
      assert s == [s[0]];
    } else if |s| > 1 {
      var c, t := s[0], s[1..];
      assert s == [c] + t && t[|t| - 1] == s[|s| - 1];
      LastSurvives(t);
      SpacingIsTidy(StripLeft(t));
      NextIsTidy(c, t);
    }
  }

  function Head(c: char, t: string): string
    requires t != "" && StripLeft(t) != ""
  {
    [c] + if Gap(c, StripLeft(t)[0], IsSpace(t[0])) then " " else ""
  }

  lemma TidyStep(c: char, t: string)
    requires t != "" && StripLeft(t) != ""
    ensures Tidy([c] + t) == Head(c, t) + Tidy(StripLeft(t))
  {
    assert ([c] + t)[1..] == t;
  }

  lemma NextIsTidy(c: char, t: string)
    requires !IsSpace(c) && t != "" && !IsSpace(t[|t| - 1]) && StripLeft(t) != ""
    requires StripLeft(t)[|StripLeft(t)| - 1] == t[|t| - 1]
    requires Spacing(StripLeft(t)) == Tidy(StripLeft(t)) + End(StripLeft(t))
    ensures Spacing([c] + t) == Tidy([c] + t) + End([c] + t)
  {
    SpacingNext(c, t);
    TidyStep(c, t);
    ConcatAssoc(Head(c, t), Tidy(StripLeft(t)), End(StripLeft(t)));
  }

  lemma SpacingNext(c: char, t: string)
    requires !IsSpace(c) && t != "" && StripLeft(t) != ""
    ensures Spacing([c] + t) == Head(c, t) + Spacing(StripLeft(t))
  {
    var g, r := if IsSpace(t[0]) then " " else "", StripLeft(t);
    CollapseStep(c, t);
    SpacingStep(c, g, Collapse(r));
    assert Collapse([c] + t) == [c] + g + Collapse(r);
  }

  lemma {:induction false} LastSurvives(s: string)
    requires s != "" && !IsSpace(s[|s| - 1])
    ensures StripLeft(s) != "" && StripLeft(s)[|StripLeft(s)| - 1] == s[|s| - 1]
    decreases |s|
  {
    if IsSpace(s[0]) {
      LastSurvives(s[1..]);
    }
  }

  // ---- Spaced text: what the one pass gives and keeps ----

  /** White space is single blanks, each where a gap may stand, and one behind each comma but the last. */
  ghost predicate Spaced(s: string) {
    && Trimmed(s)
    && (forall i :: 0 < i < |s| - 1 && IsSpace(s[i]) ==> BlankAt(s, i))
    && (forall i :: 0 <= i < |s| - 1 && s[i] == ',' ==> s[i + 1] == ' ')
  }

  predicate BlankAt(s: string, i: nat)
    requires 0 < i < |s| - 1
  {
    s[i] == ' ' && !IsSpace(s[i - 1]) && !IsSpace(s[i + 1]) && Gap(s[i - 1], s[i + 1], true)
  }

  lemma {:induction false} TidyIsSpaced(s: string)
    requires Trimmed(s)
    ensures Spaced(Tidy(s)) && (s != "" ==> Tidy(s) != "" && Tidy(s)[0] == s[0])
    decreases |s|
  {
    if |s| > 1 {
      var c, t := s[0], s[1..];
      assert s == [c] + t && t[|t| - 1] == s[|s| - 1];
      LastSurvives(t);
      TidyIsSpaced(StripLeft(t));
      TidyStep(c, t);
      SpacedCons(c, if Gap(c, StripLeft(t)[0], IsSpace(t[0])) then " " else "", Tidy(StripLeft(t)));
    }
  }

  lemma SpacedCons(c: char, g: string, x: string)
    requires !IsSpace(c) && x != "" && Spaced(x)
    requires g == (if c == ',' then " " else g) && (g == "" || (g == " " && Gap(c, x[0], true)))
    ensures Spaced([c] + g + x)
  {
    var s, n := [c] + g + x, |g| + 1;
    forall i | 0 < i < |s| - 1 && IsSpace(s[i]) ensures BlankAt(s, i) {
      if i < n {
        assert i == 1 && s[2] == x[0];
      } else {
        assert s[i] == x[i - n] && s[i + 1] == x[i + 1 - n];
        assert i > n && s[i - 1] == x[i - 1 - n];
        assert BlankAt(x, i - n);
      }
    }
    forall i | 0 <= i < |s| - 1 && s[i] == ',' ensures s[i + 1] == ' ' {
      if i >= n {
        assert s[i] == x[i - n] && s[i + 1] == x[i + 1 - n];
      }
    }
  }

  lemma {:induction false} SpacedIsTidy(s: string)
    requires Spaced(s)
    ensures Tidy(s) == s
    decreases |s|
  {
    if |s| > 1 {
      var g, r := FirstGap(s);
      SpacedIsTidy(r);
    }
  }

  /** The first character of spaced text, the gap behind it, and the rest. */
  lemma FirstGap(s: string) returns (g: string, r: string)
    requires Spaced(s) && |s| > 1
    ensures r != "" && Spaced(r) && r == StripLeft(s[1..]) && s == [s[0]] + g + r
    ensures g == if Gap(s[0], r[0], IsSpace(s[1])) then " " else ""
  {
    var n := if IsSpace(s[1]) then 2 else 1;
    assert n == 2 ==> |s| > 2 && BlankAt(s, 1);
    g, r := s[1..n], s[n..];
    assert r == s[n..|s|] && r[|r| - 1] == s[|s| - 1];
    SpacedPart(s, n, |s|);
    CutBehindFirst(s, n);
    StripLeftBlank(g, r);
  }

  lemma CutBehindFirst(s: string, n: nat)
    requires 1 <= n <= |s|
    ensures s[1..] == s[1..n] + s[n..] && s == [s[0]] + s[1..n] + s[n..]
  {
  }

  /** A part of spaced text that does not start or end with white space is spaced. */
  lemma SpacedPart(s: string, lo: nat, hi: nat)
    requires Spaced(s) && lo <= hi <= |s| && Trimmed(s[lo..hi])
    ensures Spaced(s[lo..hi])
  {
    var p := s[lo..hi];
    forall i | 0 < i < |p| - 1 && IsSpace(p[i]) ensures BlankAt(p, i) {
      assert BlankAt(s, lo + i);
    }
    forall i | 0 <= i < |p| - 1 && p[i] == ',' ensures p[i + 1] == ' ' {
      assert s[lo + i] == ',' && s[lo + i + 1] == p[i + 1];
    }
  }

  // ---- Text without const ----

  predicate ConstFree(s: string, boundary: bool)
    decreases |s|
  {
    s == "" || (!(boundary && StartsConst(s)) && ConstFree(s[1..], !IsWord(s[0])))
  }

  lemma FreeAnywhere(s: string, boundary: bool)
    requires ConstFree(s, true)
    ensures ConstFree(s, boundary)
  {
  }

  lemma {:induction false} RemoveConstIsFree(s: string, boundary: bool)
    ensures ConstFree(RemoveConst(s, boundary), boundary)
    decreases |s|
  {
    if s != "" {
      if boundary && StartsConst(s) {
        RemoveConstIsFree(StripLeft(s[5..]), true);
      } else {
        RemoveConstIsFree(s[1..], !IsWord(s[0]));
        var r := RemoveConst(s, boundary);
        assert r[1..] == RemoveConst(s[1..], !IsWord(s[0]));
        if boundary && StartsConst(r) {
          NoNewConst(s, boundary);
        }
      }
    }
  }

  /** Removing does not make a const out of the letters around. */
  lemma NoNewConst(s: string, boundary: bool)
    requires !(boundary && StartsConst(s))
    ensures StartsConst(RemoveConst(s, boundary)) ==> StartsConst(s)
  {
    var r := RemoveConst(s, boundary);
    if StartsConst(r) {
      CopiesLetter(s, boundary);
      CopiesLetter(s[1..], false);
      CopiesLetter(s[2..], false);
      CopiesLetter(s[3..], false);
      CopiesLetter(s[4..], false);
      CopiesLetter(s[5..], false);
    }
  }

  /** One step that removes nothing. */
  lemma CopiesLetter(s: string, boundary: bool)
    requires !(boundary && StartsConst(s)) && RemoveConst(s, boundary) != ""
    ensures s != "" && RemoveConst(s, boundary)[0] == s[0]
    ensures RemoveConst(s, boundary)[1..] == RemoveConst(s[1..], !IsWord(s[0]))
  {
  }

  lemma {:induction false} FreeIsKept(s: string, boundary: bool)
    requires ConstFree(s, boundary)
    ensures RemoveConst(s, boundary) == s
    decreases |s|
  {
    if s != "" {
      FreeIsKept(s[1..], !IsWord(s[0]));
    }
  }

  lemma {:induction false} FreeSuffix(s: string, k: nat, boundary: bool)
    requires ConstFree(s, boundary) && k <= |s|
    ensures ConstFree(s[k..], if k == 0 then boundary else !IsWord(s[k - 1]))
    decreases k
  {
    if k == 0 {
      assert s[0..] == s;
    } else {
      FreeSuffix(s[1..], k - 1, !IsWord(s[0]));
      assert s[1..][k - 1..] == s[k..];
    }
  }

  lemma {:induction false} FreePrefix(s: string, k: nat, boundary: bool)
    requires ConstFree(s, boundary) && k <= |s|
    ensures ConstFree(s[..k], boundary)
    decreases k
  {
    if k > 0 {
      FreePrefix(s[1..], k - 1, !IsWord(s[0]));
      assert s[..k][1..] == s[1..][..k - 1];
      assert StartsConst(s[..k]) ==> StartsConst(s);
    }
  }

  lemma {:induction false} RemoveConstIsTrimmed(s: string, boundary: bool)
    requires Trimmed(s)
    ensures Trimmed(RemoveConst(s, boundary))
    decreases |s|
  {
    if s != "" {
      if boundary && StartsConst(s) {
        LastSurvives(s[5..]);
        RemoveConstIsTrimmed(StripLeft(s[5..]), true);
      } else {
        RemoveKeepsLast(s[1..], !IsWord(s[0]));
      }
    }
  }

  lemma {:induction false} RemoveKeepsLast(s: string, boundary: bool)
    requires s != "" ==> !IsSpace(s[|s| - 1])
    ensures s != "" ==> RemoveConst(s, boundary) != ""
                        && RemoveConst(s, boundary)[|RemoveConst(s, boundary)| - 1] == s[|s| - 1]
    decreases |s|
  {
    if s != "" {
      if boundary && StartsConst(s) {
        LastSurvives(s[5..]);
        RemoveKeepsLast(StripLeft(s[5..]), true);
      } else {
        RemoveKeepsLast(s[1..], !IsWord(s[0]));
      }
    }
  }

  lemma ReferenceIsPrefix(s: string)
    requires Trimmed(s)
    ensures Trimmed(StripReference(s)) && StripReference(s) == s[..|StripReference(s)|]
  {
    if s != "" && s[|s| - 1] == '&' {
      var k := if |s| > 1 && s[|s| - 2] == '&' then |s| - 2 else |s| - 1;
      StripRightIsPrefix(s[..k]);
      assert s[..k][..|StripReference(s)|] == s[..|StripReference(s)|];
    }
  }

  /** Neither does tidying bring letters together. */
  lemma {:induction false} TidyKeepsFree(s: string, boundary: bool)
    requires Trimmed(s) && ConstFree(s, boundary)
    ensures ConstFree(Tidy(s), boundary)
    decreases |s|
  {
    if |s| > 1 {
      var c, t := s[0], s[1..];
      assert s == [c] + t && t[|t| - 1] == s[|s| - 1];
      LastSurvives(t);
      FreeAfterSpaces(t, !IsWord(c));
      var r := StripLeft(t);
      var gap := Gap(c, r[0], IsSpace(t[0]));
      TidyKeepsFree(r, gap || !IsWord(c));
      TidyStep(c, t);
      if boundary && StartsConst(Tidy(s)) {
        TidyMakesNoConst(s);
      }
      FreeBehind(c, if gap then " " else "", Tidy(r), boundary);
    }
  }

  lemma FreeBehind(c: char, g: string, x: string, boundary: bool)
    requires (g == "" && ConstFree(x, !IsWord(c))) || (g == " " && ConstFree(x, true))
    requires !(boundary && StartsConst([c] + g + x))
    ensures ConstFree([c] + g + x, boundary)
  {
    assert ([c] + g + x)[1..] == g + x;
    assert g == " " ==> (g + x)[1..] == x;
    assert g == "" ==> g + x == x;
  }

  lemma TidyMakesNoConst(s: string)
    requires Trimmed(s) && StartsConst(Tidy(s))
    ensures StartsConst(s)
  {
    TidyCopiesLetter(s);
    TidyCopiesLetter(s[1..]);
    TidyCopiesLetter(s[2..]);
    TidyCopiesLetter(s[3..]);
    TidyCopiesLetter(s[4..]);
  }

  lemma TidyCopiesLetter(s: string)
    requires Trimmed(s) && |Tidy(s)| > 1 && IsWord(Tidy(s)[0])
    ensures |s| > 1 && s[0] == Tidy(s)[0]
    ensures IsWord(Tidy(s)[1]) ==> s[1] == Tidy(s)[1] && Trimmed(s[1..]) && Tidy(s)[1..] == Tidy(s[1..])
    ensures IsSpace(Tidy(s)[1]) ==> IsSpace(s[1])
  {
    var c, t := s[0], s[1..];
    assert s == [c] + t && t[|t| - 1] == s[|s| - 1];
    LastSurvives(t);
    TidyStep(c, t);
    TidyIsSpaced(StripLeft(t));
  }

  /** After white space any word is at a boundary. */
  lemma {:induction false} FreeAfterSpaces(t: string, boundary: bool)
    requires ConstFree(t, boundary)
    ensures ConstFree(StripLeft(t), boundary)
    ensures t != "" && IsSpace(t[0]) ==> ConstFree(StripLeft(t), true)
    decreases |t|
  {
    if t != "" && IsSpace(t[0]) {
      assert !IsWord(t[0]);
      FreeAfterSpaces(t[1..], true);
      FreeAnywhere(StripLeft(t), boundary);
    }
  }

  // ---- Normal text ----

  /** What normalising gives. */
  ghost predicate Normal(s: string) {
    Spaced(s) && ConstFree(s, true)
  }

  lemma {:induction false} ColonsAreOff(s: string)
    ensures StripColons(s) == s[|s| - |StripColons(s)|..]
    ensures forall i :: 0 <= i < |s| - |StripColons(s)| ==> s[i] == ':'
    decreases |s|
  {
    if s != "" && s[0] == ':' {
      ColonsAreOff(s[1..]);
    }
  }

  lemma {:induction false} ColonsBefore(s: string, e: string)
    requires s != "" && s[|s| - 1] != ':'
    ensures StripColons(s + e) == StripColons(s) + e && StripColons(s) != ""
    ensures StripColons(s)[|StripColons(s)| - 1] == s[|s| - 1]
    decreases |s|
  {
    if s[0] == ':' {
      assert (s + e)[1..] == s[1..] + e;
      ColonsBefore(s[1..], e);
    }
  }

  /** What is left of a text without its leading colons and the white space behind them. */
  function Bare(s: string): string {
    StripLeft(StripColons(s))
  }

  /** A part of the text, behind colons and a blank. */
  lemma BareIsSuffix(s: string)
    ensures |Bare(s)| <= |s| && Bare(s) == s[|s| - |Bare(s)|..]
    ensures |Bare(s)| < |s| ==> s[|s| - |Bare(s)| - 1] == ':' || IsSpace(s[|s| - |Bare(s)| - 1])
  {
    var r := StripColons(s);
    ColonsAreOff(s);
    StripLeftIsSuffix(r);
    var k := |s| - |r|;
    assert s[k..][|r| - |Bare(s)|..] == s[|s| - |Bare(s)|..];
    if |Bare(s)| < |r| {
      assert IsSpace(r[|r| - |Bare(s)| - 1]);
    }
  }

  lemma BareAfterSpacing(t: string)
    requires Trimmed(t)
    ensures Strip(StripColons(t + End(t))) == Bare(t) && Trimmed(Bare(t))
  {
    var r := Bare(t);
    BareIsSuffix(t);
    assert Trimmed(r);
    if End(t) == "" {
      assert t + "" == t;
      StripPadding("", r, "");
      assert "" + r + "" == r;
    } else {
      ColonsBefore(t, " ");
      LastSurvives(StripColons(t));
      StripLeftPrefix(StripColons(t), " ");
      StripRightBlank(r, " ");
    }
  }

  lemma {:induction false} StripLeftPrefix(s: string, e: string)
    requires StripLeft(s) != ""
    ensures StripLeft(s + e) == StripLeft(s) + e
    decreases |s|
  {
    if s != "" && IsSpace(s[0]) {
      assert (s + e)[1..] == s[1..] + e;
      StripLeftPrefix(s[1..], e);
    }
  }

  /** Normalising, with the spacing steps in one pass. */
  lemma NormalizeInOnePass(s: string)
    ensures var u := StripReference(RemoveConst(Strip(s), true));
            Trimmed(u) && Normalize(s) == Bare(Tidy(u)) && Trimmed(Bare(Tidy(u)))
  {
    var r := RemoveConst(Strip(s), true);
    var u := StripReference(r);
    StripIsTrimmed(s);
    RemoveConstIsTrimmed(Strip(s), true);
    ReferenceIsPrefix(r);
    SpacingIsTidy(u);
    TidyIsSpaced(u);
    TidyKeepsEnd(u);
    BareAfterSpacing(Tidy(u));
  }

  lemma {:induction false} TidyKeepsEnd(s: string)
    requires Trimmed(s)
    ensures End(Tidy(s)) == End(s)
    decreases |s|
  {
    if |s| > 1 {
      var c, t := s[0], s[1..];
      assert s == [c] + t && t[|t| - 1] == s[|s| - 1];
      LastSurvives(t);
      TidyKeepsEnd(StripLeft(t));
      TidyIsSpaced(StripLeft(t));
      TidyStep(c, t);
      EndOfRest(Head(c, t), Tidy(StripLeft(t)));
    }
  }

  lemma EndOfRest(a: string, b: string)
    requires b != ""
    ensures End(a + b) == End(b)
  {
  }

  /** Any text normalises to normal text. */
  lemma NormalizeIsNormal(s: string)
    ensures Normal(Normalize(s))
  {
    var r := RemoveConst(Strip(s), true);
    StripIsTrimmed(s);
    RemoveConstIsTrimmed(Strip(s), true);
    RemoveConstIsFree(Strip(s), true);
    ReferenceIsPrefix(r);
    FreePrefix(r, |StripReference(r)|, true);
    TidyIsNormal(StripReference(r));
    NormalizeInOnePass(s);
    BareIsNormal(Tidy(StripReference(r)));
  }

  lemma TidyIsNormal(u: string)
    requires Trimmed(u) && ConstFree(u, true)
    ensures Normal(Tidy(u))
  {
    TidyKeepsFree(u, true);
    TidyIsSpaced(u);
  }

  lemma BareIsNormal(t: string)
    requires Normal(t) && Trimmed(Bare(t))
    ensures Normal(Bare(t))
  {
    BareIsSuffix(t);
    var lo := |t| - |Bare(t)|;
    assert t[lo..|t|] == Bare(t);
    NormalPart(t, lo, |t|);
  }

  /** A part of normal text is normal if it starts no word in the middle and is trimmed. */
  lemma NormalPart(s: string, lo: nat, hi: nat)
    requires Normal(s) && lo <= hi <= |s| && Trimmed(s[lo..hi])
    requires lo > 0 ==> !IsWord(s[lo - 1])
    ensures Normal(s[lo..hi])
  {
    SpacedPart(s, lo, hi);
    FreeSuffix(s, lo, true);
    FreePrefix(s[lo..], hi - lo, true);
    assert s[lo..][..hi - lo] == s[lo..hi];
  }

  /** Normalising normal text again takes off at most one reference mark, and colons. */
  lemma NormalizeNormal(s: string)
    requires Normal(s)
    ensures Normalize(s) == Bare(StripReference(s))
  {
    StripPadding("", s, "");
    assert "" + s + "" == s;
    FreeIsKept(s, true);
    var u := StripReference(s);
    ReferenceIsPrefix(s);
    SpacedPart(s, 0, |u|);
    assert s[0..|u|] == u;
    SpacedIsTidy(u);
    NormalizeInOnePass(s);
  }

  /** Without white space and commas there is nothing to do but at the ends. */
  lemma SolidIsNormal(s: string)
    requires forall i :: 0 <= i < |s| ==> !IsSpace(s[i]) && s[i] != ','
    ensures Normal(s)
  {
    SolidIsFree(s, true);
  }

  lemma {:induction false} SolidIsFree(s: string, boundary: bool)
    requires forall i :: 0 <= i < |s| ==> !IsSpace(s[i])
    ensures ConstFree(s, boundary)
    decreases |s|
  {
    if s != "" {
      SolidIsFree(s[1..], !IsWord(s[0]));
    }
  }

  // ---- The marks an argument may carry ----

  /** Colons, possibly with a blank behind them. */
  predicate IsLeft(l: string) {
    forall i :: 0 <= i < |l| ==> l[i] == ':' || (l[i] == ' ' && 0 < i == |l| - 1)
  }

  predicate IsRight(r: string) {
    r == "" || r == "&" || r == "&&" || r == " &" || r == " &&"
  }

  /** Normal text is its normalised form with such marks around it. */
  lemma MarksOfNormal(s: string) returns (l: string, r: string)
    requires Normal(s)
    ensures IsLeft(l) && IsRight(r) && s == l + Normalize(s) + r
  {
    NormalizeNormal(s);
    l, r := MarksOfSpaced(s);
  }

  lemma MarksOfSpaced(s: string) returns (l: string, r: string)
    requires Spaced(s)
    ensures IsLeft(l) && IsRight(r) && s == l + Bare(StripReference(s)) + r
  {
    var u := StripReference(s);
    RightMark(s);
    LeftMark(s);
    ThreeParts(s);
    l, r := u[..|u| - |Bare(u)|], s[|u|..];
  }

  lemma ThreeParts(s: string)
    requires Spaced(s)
    ensures var u := StripReference(s);
            |Bare(u)| <= |u| <= |s| && s == u[..|u| - |Bare(u)|] + Bare(u) + s[|u|..]
  {
    var u := StripReference(s);
    ReferenceIsPrefix(s);
    BareIsSuffix(u);
    TwoParts(u, |u| - |Bare(u)|);
    TwoParts(s, |u|);
  }

  lemma TwoParts(s: string, k: nat)
    requires k <= |s|
    ensures s == s[..k] + s[k..]
  {
  }

  lemma RightMark(s: string)
    requires Spaced(s)
    ensures |StripReference(s)| <= |s| && IsRight(s[|StripReference(s)|..])
  {
    if s != "" && s[|s| - 1] == '&' {
      var k := if |s| > 1 && s[|s| - 2] == '&' then |s| - 2 else |s| - 1;
      BlankBefore(s, k);
      assert s[k..] == if k == |s| - 1 then "&" else "&&";
      if k > 0 && IsSpace(s[k - 1]) {
        assert s[k - 1..] == [' '] + s[k..];
      }
    }
  }

  lemma BlankBefore(s: string, k: nat)
    requires Spaced(s) && k < |s|
    ensures StripRight(s[..k]) == if k > 0 && IsSpace(s[k - 1]) then s[..k - 1] else s[..k]
    ensures k > 0 && IsSpace(s[k - 1]) ==> s[k - 1] == ' '
  {
    if k > 0 && IsSpace(s[k - 1]) {
      assert BlankAt(s, k - 1);
      assert s[..k][..k - 1] == s[..k - 1];
    }
  }

  lemma LeftMark(s: string)
    requires Spaced(s)
    ensures var u := StripReference(s); |Bare(u)| <= |u| && IsLeft(u[..|u| - |Bare(u)|])
  {
    var u := StripReference(s);
    ReferenceIsPrefix(s);
    SpacedPart(s, 0, |u|);
    assert s[0..|u|] == u;
    ColonsAreOff(u);
    BlankAfter(u, |u| - |StripColons(u)|);
  }

  lemma BlankAfter(s: string, k: nat)
    requires Spaced(s) && k <= |s|
    ensures StripLeft(s[k..]) == if k < |s| && IsSpace(s[k]) then s[k + 1..] else s[k..]
    ensures k < |s| && IsSpace(s[k]) ==> k > 0 && s[k] == ' '
  {
    if k < |s| && IsSpace(s[k]) {
      assert BlankAt(s, k);
      assert s[k..][1..] == s[k + 1..];
    }
  }

  /** Around a text without marks of its own they are exactly what normalising takes off. */
  lemma MarksAreOff(l: string, p: string, r: string)
    requires IsLeft(l) && IsRight(r) && Normal(l + p + r)
    requires p != "" && Trimmed(p) && p[0] != ':' && p[|p| - 1] != '&'
    ensures Normalize(l + p + r) == p
  {
    var s := l + p + r;
    NormalizeNormal(s);
    assert (l + p)[|l + p| - 1] == p[|p| - 1];
    RightIsOff(l + p, r);
    LeftIsOff(l, p);
  }

  lemma RightIsOff(s: string, r: string)
    requires IsRight(r) && s != "" && s[|s| - 1] != '&' && !IsSpace(s[|s| - 1])
    ensures StripReference(s + r) == s
  {
    var n := |s + r|;
    if r == "" {
      assert s + r == s;
    } else if r == "&" || r == " &" {
      assert (s + r)[..n - 1] == s + r[..|r| - 1];
      StripRightBlank(s, r[..|r| - 1]);
    } else {
      assert (s + r)[..n - 2] == s + r[..|r| - 2];
      StripRightBlank(s, r[..|r| - 2]);
    }
  }

  lemma {:induction false} LeftIsOff(l: string, p: string)
    requires IsLeft(l) && p != "" && p[0] != ':' && !IsSpace(p[0])
    ensures Bare(l + p) == p
    decreases |l|
  {
    if l == "" {
      assert l + p == p;
    } else {
      assert (l + p)[1..] == l[1..] + p;
      if |l| == 1 || l[1] == ':' {
        LeftIsOff(l[1..], p);
      } else {
        assert l[1..] + p == " " + p && StripColons(" " + p) == " " + p;
        assert StripColons(l + p) == StripColons(" " + p);
        StripLeftBlank(" ", p);
      }
    }
  }
}
