/** What normalising does to a type spelling, in terms of its characters: what it keeps, what it takes
    off, and what the result looks like. */
module NormalForm {
  import opened NormalizeType

  /** White space as the regular expressions see it, up to Latin-1. */
  predicate IsWhite(c: char) {
    c as int in {9, 10, 11, 12, 13, 28, 29, 30, 31, 32, 133, 160}
  }

  /** An ASCII letter or digit, or the underscore. */
  predicate IsNamePart(c: char) {
    48 <= c as int <= 57 || 65 <= c as int <= 90 || 97 <= c as int <= 122 || c as int == 95
  }

  lemma CharacterClasses(c: char)
    ensures IsSpace(c) <==> IsWhite(c)
    ensures IsWord(c) <==> IsNamePart(c)
  {
  }

  /** The word const and white space stand at i, and no word goes on there. */
  predicate ConstAt(s: string, i: nat) {
    && i + 6 <= |s| && s[i..i + 5] == "const" && IsWhite(s[i + 5])
    && (i == 0 || !IsNamePart(s[i - 1]))
  }

  // ---- What a normalised text looks like ----

  lemma {:induction false} FreeAt(s: string, boundary: bool, i: nat)
    requires ConstFree(s, boundary) && i < |s| && (i == 0 ==> boundary) && (i > 0 ==> !IsWord(s[i - 1]))
    ensures !StartsConst(s[i..])
    decreases |s|
  {
    if i == 0 {
      assert s[0..] == s;
    } else {
      assert s[1..][i - 1..] == s[i..];
      FreeAt(s[1..], !IsWord(s[0]), i - 1);
    }
  }

  lemma ConstIsConst(s: string, i: nat)
    requires i < |s|
    ensures ConstAt(s, i) <==> StartsConst(s[i..]) && (i == 0 || !IsWord(s[i - 1]))
  {
    var t := s[i..];
    if i + 6 <= |s| {
      var w := s[i..i + 5];
      assert w == "const" <==> w[0] == 'c' && w[1] == 'o' && w[2] == 'n' && w[3] == 's' && w[4] == 't';
      assert t[0] == w[0] && t[1] == w[1] && t[2] == w[2] && t[3] == w[3] && t[4] == w[4] && t[5] == s[i + 5];
    }
  }

  /** White space at i is a single blank: not at the ends, and not beside a bracket or before a comma
      unless it stands behind a comma. */
  predicate SingleBlank(r: string, i: nat) {
    && 0 < i < |r| - 1 && r[i] == ' ' && !IsWhite(r[i - 1]) && !IsWhite(r[i + 1])
    && (r[i - 1] == ',' || (r[i - 1] !in {'<', '>'} && r[i + 1] !in {'<', '>', ','}))
  }

  lemma BlankOfSpaced(r: string, i: nat)
    requires Spaced(r) && i < |r| && IsWhite(r[i])
    ensures SingleBlank(r, i)
  {
    CharacterClasses(r[i]);
    CharacterClasses(r[0]);
    CharacterClasses(r[|r| - 1]);
    assert BlankAt(r, i);
    CharacterClasses(r[i - 1]);
    CharacterClasses(r[i + 1]);
  }

  /** Whatever is normalised: white space is single blanks, one follows each comma but the last, and the
      word const is not left. */
  lemma NormalizedText(s: string, i: nat)
    requires i < |Normalize(s)|
    ensures var r := Normalize(s);
      && (IsWhite(r[i]) ==> SingleBlank(r, i)) && (r[i] == ',' && i < |r| - 1 ==> r[i + 1] == ' ')
      && !ConstAt(r, i)
  {
    var r := Normalize(s);
    NormalizeIsNormal(s);
    ConstIsConst(r, i);
    if ConstAt(r, i) {
      FreeAt(r, true, i);
    }
    if IsWhite(r[i]) {
      BlankOfSpaced(r, i);
    }
  }

  // ---- What is kept ----

  /** The text without its white space. */
  function Ink(s: string): string {
    if s == "" then "" else (if IsWhite(s[0]) then "" else [s[0]]) + Ink(s[1..])
  }

  lemma {:induction false} InkConcat(a: string, b: string)
    ensures Ink(a + b) == Ink(a) + Ink(b)
    decreases |a|
  {
    if a == "" {
      assert a + b == b;
    } else {
      assert (a + b)[1..] == a[1..] + b;
      InkConcat(a[1..], b);
    }
  }

  lemma {:induction false} InkOfBlank(s: string)
    requires Blank(s)
    ensures Ink(s) == ""
    decreases |s|
  {
    if s != "" {
      CharacterClasses(s[0]);
      InkOfBlank(s[1..]);
    }
  }

  lemma InkOfStripLeft(s: string)
    ensures Ink(StripLeft(s)) == Ink(s)
  {
    StripLeftIsSuffix(s);
    var k := |s| - |StripLeft(s)|;
    assert s == s[..k] + s[k..];
    InkConcat(s[..k], s[k..]);
    InkOfBlank(s[..k]);
  }

  lemma InkOfStrip(s: string)
    ensures Ink(Strip(s)) == Ink(s)
  {
    var r := StripLeft(s);
    InkOfStripLeft(s);
    StripRightIsPrefix(r);
    var k := |StripRight(r)|;
    assert r == r[..k] + r[k..];
    InkConcat(r[..k], r[k..]);
    InkOfBlank(r[k..]);
  }

  lemma {:induction false} InkOfTidy(s: string)
    requires Trimmed(s)
    ensures Ink(Tidy(s)) == Ink(s)
    decreases |s|
  {
    if |s| > 1 {
      var c, t := s[0], s[1..];
      assert s == [c] + t && t[|t| - 1] == s[|s| - 1];
      LastSurvives(t);
      InkOfTidy(StripLeft(t));
      TidyStep(c, t);
      InkConcat(Head(c, t), Tidy(StripLeft(t)));
      InkOfHead(c, t);
      InkOfStripLeft(t);
      InkConcat([c], t);
    }
  }

  lemma InkOfHead(c: char, t: string)
    requires t != "" && StripLeft(t) != ""
    ensures Ink(Head(c, t)) == Ink([c])
  {
    InkConcat([c], " ");
    assert " "[1..] == "" && Ink(" ") == "" && [c] + "" == [c];
  }

  lemma FirstInk(s: string)
    requires Trimmed(s) && s != ""
    ensures Ink(s) != "" && Ink(s)[0] == s[0] && Ink(s)[|Ink(s)| - 1] == s[|s| - 1]
  {
    var k := |s| - 1;
    CharacterClasses(s[0]);
    CharacterClasses(s[k]);
    assert s == s[..k] + [s[k]];
    InkConcat(s[..k], [s[k]]);
    assert [s[k]][1..] == "";
  }

  /** A text without the word const, a leading colon and a reference mark at its end keeps all its
      characters other than white space, in order. */
  lemma InkIsKept(s: string)
    requires forall i :: 0 <= i < |s| ==> !ConstAt(s, i)
    requires Ink(s) != "" ==> Ink(s)[0] != ':' && Ink(s)[|Ink(s)| - 1] != '&'
    ensures Ink(Normalize(s)) == Ink(s)
  {
    var t := Strip(s);
    StripIsTrimmed(s);
    InkOfStrip(s);
    StrippedIsFree(s);
    FreeIsKept(t, true);
    if t != "" {
      FirstInk(t);
    }
    assert StripReference(t) == t;
    NormalizeInOnePass(s);
    TidyIsSpaced(t);
    assert Bare(Tidy(t)) == Tidy(t);
    InkOfTidy(t);
  }

  lemma StrippedIsFree(s: string)
    requires forall i :: 0 <= i < |s| ==> !ConstAt(s, i)
    ensures ConstFree(Strip(s), true)
  {
    var k := StripIsPart(s);
    var t := Strip(s);
    forall i | 0 <= i < |t| && (i == 0 || !IsWord(t[i - 1])) ensures !StartsConst(t[i..]) {
      if StartsConst(t[i..]) {
        PartStartsConst(s, t, k, i);
      }
    }
    FreeIfNowhere(t, true);
  }

  lemma PartStartsConst(s: string, t: string, k: nat, i: nat)
    requires PartAt(s, t, k) && (k > 0 ==> IsSpace(s[k - 1])) && i < |t|
    requires StartsConst(t[i..]) && (i == 0 || !IsWord(t[i - 1]))
    ensures ConstAt(s, k + i)
  {
    ConstIsConst(s, k + i);
    assert forall j :: 0 <= j < |t| ==> t[j] == s[k + j];
    assert forall j :: 0 <= j < 6 ==> s[k + i..][j] == t[i..][j];
  }

  lemma {:induction false} FreeIfNowhere(s: string, boundary: bool)
    requires forall i :: 0 <= i < |s| && (if i == 0 then boundary else !IsWord(s[i - 1])) ==> !StartsConst(s[i..])
    ensures ConstFree(s, boundary)
    decreases |s|
  {
    if s != "" {
      assert s[0..] == s;
      forall i | 0 <= i < |s[1..]| && (if i == 0 then !IsWord(s[0]) else !IsWord(s[1..][i - 1]))
        ensures !StartsConst(s[1..][i..])
      {
        assert s[1..][i..] == s[i + 1..];
      }
      FreeIfNowhere(s[1..], !IsWord(s[0]));
    }
  }

  // ---- What is taken off ----

  lemma NoConstInFront(a: string, x: string, boundary: bool)
    requires a != "" && !IsWord(a[|a| - 1]) && !(boundary && StartsConst(a))
    ensures RemoveConst(a + x, boundary) == [a[0]] + RemoveConst(a[1..] + x, !IsWord(a[0]))
  {
    var s := a + x;
    assert s[1..] == a[1..] + x;
    if StartsConst(s) && |a| < 6 {
      assert s[|a| - 1] == a[|a| - 1];
    }
  }

  function Unconst(s: string): string {
    RemoveConst(s, true)
  }

  lemma RemoveFirst(s: string, x: string)
    requires StartsConst(s) && s[5..] == x
    ensures Unconst(s) == Unconst(StripLeft(x))
  {
  }

  lemma StripBefore(c: string, x: string)
    requires x != "" && !IsSpace(x[0])
    ensures StripLeft(c + x) == StripLeft(c) + x
  {
    if StripLeft(c) == "" {
      StripLeftIsSuffix(c);
      StripLeftBlank(c, x);
      assert "" + x == x;
    } else {
      StripLeftPrefix(c, x);
    }
  }

  lemma ConstGoesOn(a: string, x: string)
    requires StartsConst(a)
    ensures StartsConst(a + x) && (a + x)[5..] == a[5..] + x
  {
  }

  lemma ConstInFront(a: string, x: string)
    requires StartsConst(a) && x != "" && !IsSpace(x[0])
    ensures Unconst(a + x) == Unconst(StripLeft(a[5..]) + x)
  {
    ConstGoesOn(a, x);
    StripBefore(a[5..], x);
    RemoveFirst(a + x, a[5..] + x);
  }

  lemma ConstBefore(x: string)
    requires x != "" && IsSpace(x[0])
    ensures StartsConst("const" + x) && ("const" + x)[5..] == x
  {
    assert ("const" + x)[5] == x[0];
  }

  lemma ConstAtOnce(w: string, b: string)
    requires w != "" && Blank(w) && b != "" && !IsSpace(b[0])
    ensures Unconst("const" + w + b) == Unconst(b)
  {
    var x := w + b;
    ConcatAssoc("const", w, b);
    ConstBefore(x);
    StripLeftBlank(w, b);
    RemoveFirst("const" + x, x);
  }

  /** The word const goes with its white space, in any place where a word can begin. */
  lemma {:induction false} ConstOff(a: string, w: string, b: string, boundary: bool)
    requires w != "" && Blank(w) && b != "" && !IsSpace(b[0]) && (if a == "" then boundary else !IsWord(a[|a| - 1]))
    ensures RemoveConst(a + ("const" + w + b), boundary) == RemoveConst(a + b, boundary)
    decreases |a|
  {
    var tail := "const" + w + b;
    if a == "" {
      assert a + tail == tail && a + b == b;
      ConstAtOnce(w, b);
    } else if boundary && StartsConst(a) {
      ConstInFront(a, tail);
      ConstInFront(a, b);
      var rest := StripLeft(a[5..]);
      StripLeftIsSuffix(a[5..]);
      ConstOff(rest, w, b, true);
    } else {
      NoConstInFront(a, tail, boundary);
      NoConstInFront(a, b, boundary);
      ConstOff(a[1..], w, b, !IsWord(a[0]));
    }
  }

  lemma StripBehind(a: string, x: string)
    requires x != "" && !IsSpace(x[0])
    ensures Strip(a + x) == StripLeft(a) + StripRight(x)
    ensures StripRight(x) != "" && StripRight(x)[0] == x[0]
  {
    StripBefore(a, x);
    StripRightBehind(StripLeft(a), x);
  }

  lemma StripRightBehind(a: string, x: string)
    requires x != "" && !IsSpace(x[0])
    ensures StripRight(a + x) == a + StripRight(x) && StripRight(x) != "" && StripRight(x)[0] == x[0]
  {
    StripRightIsPrefix(x);
    var y := StripRight(x);
    assert x == y + x[|y|..];
    assert a + x == (a + y) + x[|y|..];
    StripRightBlank(a + y, x[|y|..]);
    assert (a + y)[|a + y| - 1] == y[|y| - 1];
  }

  lemma SameNormal(s: string, t: string)
    requires Unconst(Strip(s)) == Unconst(Strip(t))
    ensures Normalize(s) == Normalize(t)
  {
  }

  lemma StripConst(a: string, w: string, b: string)
    requires b != "" && !IsSpace(b[0])
    ensures Strip(a + ("const" + w + b)) == StripLeft(a) + ("const" + w + StripRight(b))
    ensures Strip(a + b) == StripLeft(a) + StripRight(b)
    ensures StripRight(b) != "" && StripRight(b)[0] == b[0]
  {
    StripBehind(a, b);
    StripBehind(a, "const" + w + b);
    StripRightBehind("const" + w, b);
  }

  /** Wherever a word can begin, the word const and white space behind it make no difference, unless
      nothing follows. */
  lemma ConstIsOff(a: string, w: string, b: string)
    requires w != "" && (forall i :: 0 <= i < |w| ==> IsWhite(w[i])) && b != "" && !IsWhite(b[0])
    requires a == "" || !IsNamePart(a[|a| - 1])
    ensures Normalize(a + ("const" + w + b)) == Normalize(a + b)
  {
    forall i | 0 <= i < |w| ensures IsSpace(w[i]) {
      CharacterClasses(w[i]);
    }
    CharacterClasses(b[0]);
    StripLeftIsSuffix(a);
    if StripLeft(a) != "" {
      CharacterClasses(a[|a| - 1]);
    }
    StripConst(a, w, b);
    ConstOff(StripLeft(a), w, StripRight(b), true);
    SameNormal(a + ("const" + w + b), a + b);
  }

  lemma {:induction false} ConstBeforeMark(l: string, m: string, boundary: bool)
    requires m == "&" || m == "&&"
    requires l != "" ==> !IsSpace(l[|l| - 1])
    ensures RemoveConst(l + m, boundary) == RemoveConst(l, boundary) + m
    decreases |l|
  {
    var s := l + m;
    if l == "" {
      assert s == m;
      MarkIsKept(m, boundary);
      assert "" + m == m;
    } else {
      assert s[1..] == l[1..] + m;
      MarkEndsConst(l, m);
      if boundary && StartsConst(l) {
        assert s[5..] == l[5..] + m;
        LastSurvives(l[5..]);
        StripLeftPrefix(l[5..], m);
        ConstBeforeMark(StripLeft(l[5..]), m, true);
      } else {
        ConstBeforeMark(l[1..], m, !IsWord(l[0]));
        ConcatAssoc([l[0]], RemoveConst(l[1..], !IsWord(l[0])), m);
      }
    }
  }

  lemma MarkIsKept(m: string, boundary: bool)
    requires m == "&" || m == "&&"
    ensures RemoveConst(m, boundary) == m
  {
    if m == "&" {
      assert m[1..] == "";
    } else {
      assert m[1..] == "&" && m[1..][1..] == "";
    }
  }

  lemma MarkEndsConst(l: string, m: string)
    requires m == "&" || m == "&&"
    ensures StartsConst(l + m) <==> StartsConst(l)
  {
    assert (l + m)[|l|] == '&';
  }

  lemma MarkedIsOff(s: string, m: string)
    requires m == "&" || m == "&&"
    requires s != "" && !IsSpace(s[|s| - 1]) && s[|s| - 1] != '&'
    ensures Normalize(s + m) == Normalize(s)
  {
    var l := StripLeft(s);
    LastSurvives(s);
    StripLeftPrefix(s, m);
    assert (l + m)[|l + m| - 1] == '&';
    assert Strip(s + m) == l + m && Strip(s) == l;
    ConstBeforeMark(l, m, true);
    RemoveKeepsLast(l, true);
    RightIsOff(RemoveConst(l, true), m);
  }

  /** A reference mark at the end makes no difference. */
  lemma ReferenceIsOff(s: string)
    requires s != "" && !IsWhite(s[|s| - 1]) && s[|s| - 1] != '&'
    ensures Normalize(s + "&") == Normalize(s) && Normalize(s + "&&") == Normalize(s)
  {
    CharacterClasses(s[|s| - 1]);
    MarkedIsOff(s, "&");
    MarkedIsOff(s, "&&");
  }

  /** The place where a reference mark begins. */
  function MarkStart(s: string): (k: nat)
    requires s != ""
    ensures k < |s|
  {
    if |s| > 1 && s[|s| - 2] == '&' then |s| - 2 else |s| - 1
  }

  lemma ReferenceCut(s: string)
    requires s != ""
    ensures StripReference(s) == if s[|s| - 1] == '&' then StripRight(s[..MarkStart(s)]) else s
  {
  }

  lemma MarkBehindColon(r: string, k: nat)
    requires r != "" && k == MarkStart(r)
    ensures var s := ":" + r; s[|s| - 1] == r[|r| - 1] && MarkStart(s) == k + 1 && s[..k + 1] == ":" + r[..k]
  {
  }

  lemma BlanksBehindColon(x: string)
    requires x != "" ==> !IsSpace(x[0])
    ensures StripRight(":" + x) == ":" + StripRight(x)
  {
    if x != "" {
      StripRightBehind(":", x);
    } else {
      assert ":" + x == ":" && StripRight(":") == ":";
    }
  }

  lemma ReferenceBehindColon(r: string)
    requires Trimmed(r)
    ensures StripReference(":" + r) == ":" + StripReference(r)
  {
    if r == "" {
      assert ":" + r == ":";
    } else {
      var k := MarkStart(r);
      ReferenceCut(r);
      ReferenceCut(":" + r);
      MarkBehindColon(r, k);
      BlanksBehindColon(r[..k]);
    }
  }

  lemma TidyBehindColon(u: string)
    requires Trimmed(u)
    ensures Bare(Tidy(":" + u)) == Bare(Tidy(u))
  {
    if u == "" {
      assert ":" + u == ":" && ":"[1..] == "" && Tidy(":") == ":" && Tidy("") == "";
    } else {
      assert (":" + u)[1..] == u;
      TidyStep(':', u);
      assert ":" + u == [':'] + u;
      assert Head(':', u) == ":";
      var x := Tidy(u);
      assert (":" + x)[1..] == x;
    }
  }

  lemma ColonStripped(s: string) returns (t: string)
    requires s != "" && !IsSpace(s[0])
    ensures Strip(":" + s) == ":" + t && Strip(s) == t && Trimmed(t)
  {
    t := StripRight(s);
    StripBehind(":", s);
    StripBehind("", s);
    StripIsTrimmed(s);
    assert "" + s == s && "" + t == t;
    assert StripLeft(":") == ":" && StripLeft("") == "";
  }

  lemma ConstBehindColon(t: string)
    ensures RemoveConst(":" + t, true) == ":" + RemoveConst(t, true)
  {
    assert (":" + t)[1..] == t;
  }

  /** A leading colon makes no difference. */
  lemma ColonIsOff(s: string)
    requires s != "" && !IsWhite(s[0])
    ensures Normalize(":" + s) == Normalize(s)
  {
    CharacterClasses(s[0]);
    var t := ColonStripped(s);
    ConstBehindColon(t);
    RemoveConstIsTrimmed(t, true);
    ReferenceBehindColon(RemoveConst(t, true));
    ReferenceIsPrefix(RemoveConst(t, true));
    TidyBehindColon(StripReference(RemoveConst(t, true)));
    NormalizeInOnePass(s);
    NormalizeInOnePass(":" + s);
  }
}
