/** The binding generator's reading of C++ type spellings: cutting template arguments at the
    commas outside angle brackets, and the recursive test for a supported type, which normalises
    the text anew at every level. */
module TypeText {
  import opened NormalizeType

  // ---- Cutting at top-level commas ----

  function DepthAfter(c: char, depth: int): int {
    if c == '<' then depth + 1 else if c == '>' then depth - 1 else depth
  }

  function Depth(s: string, depth: int): int {
    if s == "" then depth else Depth(s[1..], DepthAfter(s[0], depth))
  }

  /** The length of s up to its first comma at bracket depth 0, or all of it. */
  function Cut(s: string, depth: int): (k: nat)
    ensures k <= |s| && (k < |s| ==> s[k] == ',')
  {
    if s == "" || (s[0] == ',' && depth == 0) then 0
    else 1 + Cut(s[1..], DepthAfter(s[0], depth))
  }

  function Pieces(s: string): (r: seq<string>)
    ensures |r| > 0
  {
    var k := Cut(s, 0);
    if k == |s| then [s] else [s[..k]] + Pieces(s[k + 1..])
  }

  function Join(pieces: seq<string>): string
    requires |pieces| > 0
  {
    if |pieces| == 1 then pieces[0] else pieces[0] + "," + Join(pieces[1..])
  }

  /** No comma outside brackets. */
  predicate Uncut(s: string) {
    Cut(s, 0) == |s|
  }

  /** No comma outside brackets, and brackets that close again. */
  predicate Closed(s: string) {
    Uncut(s) && Depth(s, 0) == 0
  }

  ghost predicate ArePieces(pieces: seq<string>) {
    |pieces| > 0 && Uncut(pieces[|pieces| - 1]) && forall i :: 0 <= i < |pieces| - 1 ==> Closed(pieces[i])
  }

  lemma {:induction false} CutOfConcat(a: string, b: string, depth: int)
    requires Cut(a, depth) == |a|
    ensures Cut(a + b, depth) == |a| + Cut(b, Depth(a, depth))
    decreases |a|
  {
    if a == "" {
      assert a + b == b;
    } else {
      assert (a + b)[1..] == a[1..] + b;
      CutOfConcat(a[1..], b, DepthAfter(a[0], depth));
    }
  }

  /** The text before the first cut has no cut, and its brackets are closed. */
  lemma {:induction false} CutIsFirst(s: string, depth: int)
    ensures var k := Cut(s, depth);
      Cut(s[..k], depth) == k && (k < |s| ==> Depth(s[..k], depth) == 0)
    decreases |s|
  {
    var k := Cut(s, depth);
    if k > 0 {
      CutIsFirst(s[1..], DepthAfter(s[0], depth));
      assert s[..k][1..] == s[1..][..k - 1];
    }
  }

  lemma {:induction false} PiecesOfJoin(pieces: seq<string>)
    requires ArePieces(pieces)
    ensures Pieces(Join(pieces)) == pieces
    decreases |pieces|
  {
    if |pieces| > 1 {
      var p, rest := pieces[0], pieces[1..];
      assert pieces == [p] + rest;
      ArePiecesCons(p, rest);
      PiecesOfJoin(rest);
      PiecesCons(p, Join(rest));
    }
  }

  lemma PiecesCons(p: string, rest: string)
    requires Closed(p)
    ensures Pieces(p + "," + rest) == [p] + Pieces(rest)
  {
    var s, tail := p + "," + rest, "," + rest;
    assert s == p + tail;
    CutOfConcat(p, tail, 0);
    assert s[..|p|] == p && s[|p| + 1..] == rest;
  }

  lemma ArePiecesCons(p: string, rest: seq<string>)
    requires |rest| > 0
    ensures ArePieces([p] + rest) <==> Closed(p) && ArePieces(rest)
  {
    var pieces := [p] + rest;
    assert forall i :: 0 <= i < |rest| ==> rest[i] == pieces[i + 1];
    assert pieces[0] == p;
  }

  lemma JoinCons(p: string, rest: seq<string>)
    requires |rest| > 0
    ensures Join([p] + rest) == p + "," + Join(rest)
  {
    assert ([p] + rest)[1..] == rest;
  }

  lemma {:induction false} JoinOfPieces(s: string)
    ensures ArePieces(Pieces(s)) && Join(Pieces(s)) == s
    decreases |s|
  {
    var k := Cut(s, 0);
    CutIsFirst(s, 0);
    if k < |s| {
      var rest := Pieces(s[k + 1..]);
      JoinOfPieces(s[k + 1..]);
      ArePiecesCons(s[..k], rest);
      JoinCons(s[..k], rest);
      assert s == s[..k] + "," + s[k + 1..];
    } else {
      assert s[..k] == s;
    }
  }

  /** Cutting is the exact inverse of joining lists of bracket-closed pieces. */
  lemma PiecesInvertJoin(s: string, pieces: seq<string>)
    ensures Pieces(s) == pieces <==> ArePieces(pieces) && Join(pieces) == s
  {
    JoinOfPieces(s);
    if ArePieces(pieces) {
      PiecesOfJoin(pieces);
    }
  }

  function StripAll(pieces: seq<string>): (r: seq<string>)
    ensures |r| == |pieces| && forall i :: 0 <= i < |r| ==> r[i] == Strip(pieces[i])
  {
    seq(|pieces|, i requires 0 <= i < |pieces| => Strip(pieces[i]))
  }

  // ---- The splitter ----

  ghost function Split(arguments: string): seq<string> {
    StripAll(Pieces(arguments))
  }

  /** The text from start to index has no cut yet, and this depth. */
  predicate Scanned(s: string, start: nat, index: nat, depth: int)
    requires start <= index <= |s|
  {
    Depth(s[start..index], 0) == depth && Uncut(s[start..index])
  }

  /** The pieces before start are split off. */
  ghost predicate SplitUpTo(s: string, result: seq<string>, start: nat)
    requires start <= |s|
  {
    Split(s) == result + Split(s[start..])
  }

  /** The loop over the characters that keeps the bracket depth and the start of the piece. */
  method SplitTemplateArguments(arguments: string) returns (result: seq<string>)
    ensures result == Split(arguments)
  {
    result := [];
    var depth, start := 0, 0;
    StartOfSplit(arguments);
    for index := 0 to |arguments|
      invariant 0 <= start <= index && Scanned(arguments, start, index, depth)
      invariant SplitUpTo(arguments, result, start)
    {
      var c := arguments[index];
      NextChar(arguments, start, index, depth);
      if c == '<' {
        depth := depth + 1;
      } else if c == '>' {
        depth := depth - 1;
      } else if c == ',' && depth == 0 {
        NextPiece(arguments, result, start, index);
        result := result + [Strip(arguments[start..index])];
        start := index + 1;
      }
    }
    LastPiece(arguments, result, start, depth);
    result := result + [Strip(arguments[start..])];
  }

  lemma StartOfSplit(s: string)
    ensures Scanned(s, 0, 0, 0) && SplitUpTo(s, [], 0)
  {
    EmptyPiece(s, 0);
    assert s[0..] == s && [] + Split(s) == Split(s);
  }

  lemma NextPiece(s: string, result: seq<string>, start: nat, index: nat)
    requires start <= index < |s| && s[index] == ',' && Scanned(s, start, index, 0) && SplitUpTo(s, result, start)
    ensures SplitUpTo(s, result + [Strip(s[start..index])], index + 1) && Scanned(s, index + 1, index + 1, 0)
  {
    EmptyPiece(s, index + 1);
    SplitAt(s, start, index);
    AppendFirst(result, Strip(s[start..index]), Split(s[index + 1..]));
  }

  lemma LastPiece(s: string, result: seq<string>, start: nat, depth: int)
    requires start <= |s| && Scanned(s, start, |s|, depth) && SplitUpTo(s, result, start)
    ensures result + [Strip(s[start..])] == Split(s)
  {
    assert s[start..|s|] == s[start..];
  }

  lemma AppendFirst(result: seq<string>, piece: string, rest: seq<string>)
    ensures result + ([piece] + rest) == (result + [piece]) + rest
  {
  }

  lemma EmptyPiece(s: string, k: nat)
    requires k <= |s|
    ensures Scanned(s, k, k, 0)
  {
    assert s[k..k] == "";
  }

  lemma SplitAt(s: string, start: nat, index: nat)
    requires start <= index < |s| && s[index] == ',' && Closed(s[start..index])
    ensures Split(s[start..]) == [Strip(s[start..index])] + Split(s[index + 1..])
  {
    SplitFirst(s[start..index], s[index + 1..]);
    assert s[start..] == s[start..index] + "," + s[index + 1..];
  }

  lemma {:induction false} DepthOfConcat(a: string, b: string, depth: int)
    ensures Depth(a + b, depth) == Depth(b, Depth(a, depth))
    decreases |a|
  {
    if a == "" {
      assert a + b == b;
    } else {
      assert (a + b)[1..] == a[1..] + b;
      DepthOfConcat(a[1..], b, DepthAfter(a[0], depth));
    }
  }

  lemma NextChar(s: string, start: nat, index: nat, depth: int)
    requires start <= index < |s| && Scanned(s, start, index, depth)
    ensures !(s[index] == ',' && depth == 0) ==> Scanned(s, start, index + 1, DepthAfter(s[index], depth))
  {
    var piece, c := s[start..index], [s[index]];
    assert s[start..index + 1] == piece + c;
    CutOfConcat(piece, c, 0);
    DepthOfConcat(piece, c, 0);
    assert c[1..] == "";
    assert Depth(c, Depth(piece, 0)) == Depth("", DepthAfter(c[0], Depth(piece, 0)));
  }

  lemma SplitFirst(piece: string, rest: string)
    requires Closed(piece)
    ensures Split(piece + "," + rest) == [Strip(piece)] + Split(rest)
  {
    PiecesCons(piece, rest);
    StripAllCons(piece, Pieces(rest));
  }

  lemma StripAllCons(piece: string, pieces: seq<string>)
    ensures StripAll([piece] + pieces) == [Strip(piece)] + StripAll(pieces)
  {
  }

  ghost function Pad(left: seq<string>, pieces: seq<string>, right: seq<string>): (r: seq<string>)
    requires |left| == |pieces| == |right|
    ensures |r| == |pieces| && forall i :: 0 <= i < |r| ==> r[i] == left[i] + pieces[i] + right[i]
  {
    seq(|pieces|, i requires 0 <= i < |pieces| => left[i] + pieces[i] + right[i])
  }

  /** Splitting recovers any non-empty list of trimmed, bracket-closed arguments from their
      comma-separated text, whatever white space surrounds them. */
  lemma SplitInvertsJoin(left: seq<string>, pieces: seq<string>, right: seq<string>)
    requires |left| == |pieces| == |right| > 0
    requires forall i :: 0 <= i < |pieces| ==>
      Blank(left[i]) && Blank(right[i]) && Trimmed(pieces[i]) && Closed(pieces[i])
    ensures Split(Join(Pad(left, pieces, right))) == pieces
  {
    var raw := Pad(left, pieces, right);
    forall i | 0 <= i < |raw| ensures Closed(raw[i]) && Strip(raw[i]) == pieces[i] {
      StripPadding(left[i], pieces[i], right[i]);
      BlankIsClosed(left[i]);
      BlankIsClosed(right[i]);
      CutOfConcat(left[i], pieces[i], 0);
      DepthOfConcat(left[i], pieces[i], 0);
      CutOfConcat(left[i] + pieces[i], right[i], 0);
      DepthOfConcat(left[i] + pieces[i], right[i], 0);
    }
    PiecesInvertJoin(Join(raw), raw);
  }

  predicate Plain(s: string) {
    forall i :: 0 <= i < |s| ==> s[i] != '<' && s[i] != '>' && s[i] != ','
  }

  lemma {:induction false} PlainIsClosed(s: string, depth: int)
    requires Plain(s)
    ensures Cut(s, depth) == |s| && Depth(s, depth) == depth
    decreases |s|
  {
    if s != "" {
      PlainIsClosed(s[1..], depth);
    }
  }

  lemma BlankIsClosed(s: string)
    requires Blank(s)
    ensures Closed(s)
  {
    forall i | 0 <= i < |s| ensures s[i] != '<' && s[i] != '>' && s[i] != ',' {
      assert IsSpace(s[i]);
    }
    PlainIsClosed(s, 0);
  }

  // ---- The supported types ----

  const CHAR_TYPES := {"bool", "char", "signed char", "unsigned char"}
  const FIXED_TYPES := {
    "int8_t", "uint8_t", "int16_t", "uint16_t", "int32_t", "uint32_t", "int64_t", "uint64_t"
  }
  const SHORT_TYPES := {"short", "unsigned short", "int", "unsigned int"}
  const LONG_TYPES := {"long", "unsigned long", "long long", "unsigned long long"}
  const SCALAR_TYPES := CHAR_TYPES + FIXED_TYPES + SHORT_TYPES + LONG_TYPES + {"float", "double"}

  const ARRAY := "std::array<"
  const VECTOR := "std::vector<"

  /** Text of the form head, at least one character that is not a line break, and a closing bracket. */
  predicate Matches(head: string, s: string) {
    |head| + 2 <= |s| && s[..|head|] == head && s[|s| - 1] == '>' && '\n' !in Inner(head, s)
  }

  function Inner(head: string, s: string): string
    requires |head| + 2 <= |s|
  {
    s[|head|..|s| - 1]
  }

  predicate IsDigits(s: string) {
    s != "" && forall i :: 0 <= i < |s| ==> '0' <= s[i] <= '9'
  }

  // ---- Arguments of normalised text ----

  /** Each piece is a part of the text, at its start or behind a comma. */
  lemma {:induction false} PieceIsPart(s: string, i: nat) returns (k: nat)
    requires i < |Pieces(s)|
    ensures PartAt(s, Pieces(s)[i], k) && (k > 0 ==> s[k - 1] == ',')
    decreases |s|
  {
    var cut := Cut(s, 0);
    if i == 0 {
      k := 0;
      FirstPiece(s);
    } else {
      k := PieceIsPart(s[cut + 1..], i - 1);
      PartBehind(s, cut, Pieces(s[cut + 1..])[i - 1], k);
      k := cut + 1 + k;
    }
  }

  lemma FirstPiece(s: string)
    ensures PartAt(s, Pieces(s)[0], 0)
  {
    var cut := Cut(s, 0);
    assert s[0..cut] == s[..cut] && s[..|s|] == s;
  }

  lemma PartBehind(s: string, cut: nat, p: string, k: nat)
    requires cut < |s| && s[cut] == ',' && PartAt(s[cut + 1..], p, k)
    requires k > 0 ==> s[cut + 1..][k - 1] == ','
    ensures PartAt(s, p, cut + 1 + k) && s[cut + k] == ','
  {
    var rest := s[cut + 1..];
    assert s[cut + 1..cut + 1 + |rest|] == rest;
    PartOfPart(s, rest, p, cut + 1, k);
  }

  lemma ArgumentInInner(inner: string, i: nat) returns (k: nat)
    requires i < |Split(inner)|
    ensures PartAt(inner, Split(inner)[i], k) && (k > 0 ==> !IsWord(inner[k - 1]))
  {
    var j := PieceIsPart(inner, i);
    k := StrippedPart(inner, Pieces(inner)[i], j);
  }

  /** Stripping a part that stands at the start or behind a comma. */
  lemma StrippedPart(s: string, p: string, j: nat) returns (k: nat)
    requires PartAt(s, p, j) && (j > 0 ==> s[j - 1] == ',')
    ensures PartAt(s, Strip(p), k) && (k > 0 ==> !IsWord(s[k - 1]))
  {
    var l := StripIsPart(p);
    PartOfPart(s, p, Strip(p), j, l);
    k := j + l;
    assert l > 0 ==> s[k - 1] == p[l - 1];
  }

  lemma InnerIsPart(s: string, head: string)
    requires Matches(head, s) && head != ""
    ensures PartAt(s, Inner(head, s), |head|) && s[|head| - 1] == head[|head| - 1]
  {
    assert s[..|head|][|head| - 1] == s[|head| - 1];
  }

  /** An argument stands behind a character that is no part of a word. */
  lemma ArgumentIsPart(s: string, head: string, i: nat) returns (k: nat)
    requires Matches(head, s) && head != "" && head[|head| - 1] == '<'
    requires i < |Split(Inner(head, s))|
    ensures k > 0 && PartAt(s, Split(Inner(head, s))[i], k) && !IsWord(s[k - 1])
  {
    InnerIsPart(s, head);
    var j := ArgumentInInner(Inner(head, s), i);
    PartOfPart(s, Inner(head, s), Split(Inner(head, s))[i], |head|, j);
    k := |head| + j;
  }

  /** An argument of normal text is normal, and shorter. */
  lemma ArgumentIsNormal(s: string, head: string, i: nat)
    requires Normal(s) && Matches(head, s) && head != "" && head[|head| - 1] == '<'
    requires i < |Split(Inner(head, s))|
    ensures Normal(Split(Inner(head, s))[i]) && |Split(Inner(head, s))[i]| < |s|
  {
    var k := ArgumentIsPart(s, head, i);
    StripIsTrimmed(Pieces(Inner(head, s))[i]);
    NormalPart(s, k, k + |Split(Inner(head, s))[i]|);
  }

  /** Normalising an argument again does not lengthen it. */
  lemma ArgumentShrinks(s: string, head: string, i: nat)
    requires Normal(s) && Matches(head, s) && head != "" && head[|head| - 1] == '<'
    requires i < |Split(Inner(head, s))|
    ensures |Normalize(Split(Inner(head, s))[i])| < |s|
  {
    ArgumentIsNormal(s, head, i);
    NormalizeNormal(Split(Inner(head, s))[i]);
  }

  /** Is this a type the generator can bind?  Every level normalises its text; the recursion ends
      because the normalised argument is shorter than the normalised text it stands in. */
  ghost predicate IsSupported(text: string, known: set<string>)
    decreases |Normalize(text)|
  {
    var s := Normalize(text);
    NormalizeIsNormal(text);
    if s in SCALAR_TYPES || s == "std::string" then true
    else if s in known then true
    else if Matches(ARRAY, s) then
      var arguments := Split(Inner(ARRAY, s));
      ArgumentShrinks(s, ARRAY, 0);
      |arguments| == 2 && IsDigits(arguments[1]) && IsSupported(arguments[0], known)
    else if Matches(VECTOR, s) then
      var arguments := Split(Inner(VECTOR, s));
      ArgumentShrinks(s, VECTOR, 0);
      |arguments| == 1 && IsSupported(arguments[0], known)
    else false
  }

  method IsSupportedType(text: string, known: set<string>) returns (r: bool)
    ensures r == IsSupported(text, known)
    decreases |Normalize(text)|
  {
    var s := Normalize(text);
    NormalizeIsNormal(text);
    if s in SCALAR_TYPES || s == "std::string" {
      return true;
    }
    if s in known {
      return true;
    }
    if Matches(ARRAY, s) {
      ArgumentShrinks(s, ARRAY, 0);
      var arguments := SplitTemplateArguments(Inner(ARRAY, s));
      if |arguments| != 2 || !IsDigits(arguments[1]) {
        return false;
      }
      r := IsSupportedType(arguments[0], known);
    } else if Matches(VECTOR, s) {
      ArgumentShrinks(s, VECTOR, 0);
      var arguments := SplitTemplateArguments(Inner(VECTOR, s));
      if |arguments| != 1 {
        return false;
      }
      r := IsSupportedType(arguments[0], known);
    } else {
      r := false;
    }
  }

  // ---- The grammar it recognises ----

  /** The element of a container carries the marks that the next normalisation takes off. */
  datatype Type = Scalar(name: string) | StdString | Known(name: string)
    | Array(left: string, element: Type, right: string, size: string)
    | Vector(left: string, element: Type, right: string)

  ghost predicate WellFormed(t: Type, known: set<string>) {
    match t
    case Scalar(n) => n in SCALAR_TYPES
    case StdString => true
    case Known(n) => n in known
    case Array(l, e, r, size) => IsLeft(l) && IsRight(r) && WellFormed(e, known) && IsDigits(size)
    case Vector(l, e, r) => IsLeft(l) && IsRight(r) && WellFormed(e, known)
  }

  ghost function Print(t: Type): string {
    match t
    case Scalar(n) => n
    case StdString => "std::string"
    case Known(n) => n
    case Array(l, e, r, size) => ARRAY + ((l + Print(e) + r) + ", " + size) + ">"
    case Vector(l, e, r) => VECTOR + (l + Print(e) + r) + ">"
  }

  /** A spelling that is not itself marked. */
  ghost predicate Unmarked(s: string) {
    Spelling(s) && s[0] != ':' && s[|s| - 1] != '&'
  }

  /** Text whose brackets nest and enclose all its commas, without white space at its ends. */
  ghost predicate Spelling(s: string) {
    s != "" && Trimmed(s) && '\n' !in s && Nested(s, 0)
  }

  ghost predicate Nested(s: string, from: nat) {
    forall d: nat {:trigger Cut(s, d)} {:trigger Depth(s, d)} :: from <= d ==> Cut(s, d) == |s| && Depth(s, d) == d
  }

  lemma NestedConcat(a: string, b: string, from: nat)
    requires Nested(a, from) && Nested(b, from)
    ensures Nested(a + b, from)
  {
    forall d: nat | from <= d ensures Cut(a + b, d) == |a + b| && Depth(a + b, d) == d {
      CutOfConcat(a, b, d);
      DepthOfConcat(a, b, d);
    }
  }

  lemma PlainIsNested(s: string)
    requires Plain(s)
    ensures Nested(s, 0)
  {
    forall d: nat ensures Cut(s, d) == |s| && Depth(s, d) == d {
      PlainIsClosed(s, d);
    }
  }

  /** No bracket, comma or line break, no white space at either end, and no mark. */
  predicate Word(s: string) {
    && s != "" && Plain(s) && Trimmed(s) && (forall i :: 0 <= i < |s| ==> s[i] != '\n')
    && s[0] != ':' && s[|s| - 1] != '&'
  }

  lemma CharTypes(s: string)
    requires s in CHAR_TYPES
    ensures Word(s)
  {
  }

  lemma FixedTypes(s: string)
    requires s in FIXED_TYPES
    ensures Word(s)
  {
  }

  lemma ShortTypes(s: string)
    requires s in SHORT_TYPES
    ensures Word(s)
  {
  }

  lemma LongTypes(s: string)
    requires s in LONG_TYPES
    ensures Word(s)
  {
    if s == "long" {
    } else if s == "unsigned long" {
    } else if s == "long long" {
    } else {
      assert s == "unsigned long long";
    }
  }

  lemma OtherTypes(s: string)
    requires s == "float" || s == "double" || s == "std::string"
    ensures Word(s)
  {
  }

  lemma ScalarSpelling(s: string)
    requires s in SCALAR_TYPES || s == "std::string"
    ensures Unmarked(s)
  {
    if s in CHAR_TYPES {
      CharTypes(s);
    } else if s in FIXED_TYPES {
      FixedTypes(s);
    } else if s in SHORT_TYPES {
      ShortTypes(s);
    } else if s in LONG_TYPES {
      LongTypes(s);
    } else {
      OtherTypes(s);
    }
    PlainIsNested(s);
  }

  lemma DigitsSpelling(s: string)
    requires IsDigits(s)
    ensures Spelling(s)
  {
    PlainIsNested(s);
  }

  lemma HeadDepth(head: string, depth: int)
    requires head == ARRAY || head == VECTOR
    ensures Cut(head, depth) == |head| && Depth(head, depth) == depth + 1
  {
    assert ARRAY == "std::array" + "<" && VECTOR == "std::vector" + "<";
    NameDepth(if head == ARRAY then "std::array" else "std::vector", depth);
  }

  lemma NameDepth(name: string, depth: int)
    requires Plain(name)
    ensures Cut(name + "<", depth) == |name| + 1 && Depth(name + "<", depth) == depth + 1
  {
    PlainIsClosed(name, depth);
    CutOfConcat(name, "<", depth);
    DepthOfConcat(name, "<", depth);
  }

  lemma ContainerNests(head: string, inner: string)
    requires head == ARRAY || head == VECTOR
    requires Nested(inner, 1)
    ensures Nested(head + inner + ">", 0)
  {
    forall d: nat
      ensures Cut(head + inner + ">", d) == |head + inner + ">"| && Depth(head + inner + ">", d) == d
    {
      HeadDepth(head, d);
      CutOfConcat(head, inner, d);
      DepthOfConcat(head, inner, d);
      CutOfConcat(head + inner, ">", d);
      DepthOfConcat(head + inner, ">", d);
    }
  }

  lemma ContainerMatches(head: string, inner: string)
    requires head == ARRAY || head == VECTOR
    requires inner != "" && '\n' !in inner
    ensures var s := head + inner + ">";
      Matches(head, s) && Inner(head, s) == inner && Trimmed(s) && '\n' !in s
  {
    var s := head + inner + ">";
    assert s[0] == head[0] == 's' && s[|s| - 1] == '>';
    assert s[..|head|] == head;
    assert Inner(head, s) == inner;
  }

  lemma ArrayInner(e: string, size: string)
    requires Spelling(e) && IsDigits(size)
    ensures Nested(e + ", " + size, 1) && '\n' !in e + ", " + size
  {
    var comma := ", ";
    forall d: nat | 1 <= d ensures Cut(comma, d) == |comma| && Depth(comma, d) == d {
      assert comma[1..] == " " && " "[1..] == "";
      assert Depth(comma, d) == Depth(" ", d) == Depth("", d);
    }
    DigitsSpelling(size);
    NestedConcat(e, comma, 1);
    NestedConcat(e + comma, size, 1);
  }

  lemma ArraySplit(e: string, size: string)
    requires Spelling(e) && IsDigits(size)
    ensures Split(e + ", " + size) == [e, size]
  {
    DigitsSpelling(size);
    assert Closed(e) && Closed(size);
    SplitInvertsJoin(["", " "], [e, size], ["", ""]);
    PaddedPair(e, size);
    JoinOfTwo(e, " " + size);
    JoinedArguments(e, size);
  }

  lemma PaddedPair(e: string, size: string)
    ensures Pad(["", " "], [e, size], ["", ""]) == [e, " " + size]
  {
    assert "" + e + "" == e && " " + size + "" == " " + size;
  }

  lemma JoinOfTwo(a: string, b: string)
    ensures Join([a, b]) == a + "," + b
  {
    assert [a, b][1..] == [b];
  }

  lemma VectorInner(e: string)
    requires Spelling(e)
    ensures Split(e) == [e]
  {
    StripPadding("", e, "");
    assert "" + e + "" == e;
    assert Cut(e, 0) == |e|;
  }

  /** Marks around an unmarked spelling leave its brackets and ends in order. */
  lemma MarkedIsSpelling(l: string, p: string, r: string)
    requires IsLeft(l) && Unmarked(p) && IsRight(r)
    ensures Spelling(l + p + r)
  {
    var s := l + p + r;
    assert Plain(l) && Plain(r);
    PlainIsNested(l);
    PlainIsNested(r);
    NestedConcat(l, p, 0);
    NestedConcat(l + p, r, 0);
    assert s[0] == if l == "" then p[0] else ':';
    assert s[|s| - 1] == if r == "" then p[|p| - 1] else '&';
  }

  lemma {:induction false} PrintIsUnmarked(t: Type, known: set<string>)
    requires WellFormed(t, known)
    requires forall n :: n in known ==> Unmarked(n)
    ensures Unmarked(Print(t))
  {
    match t
    case Scalar(n) => ScalarSpelling(n);
    case StdString => ScalarSpelling("std::string");
    case Known(n) =>
    case Array(l, e, r, size) =>
      var inner := (l + Print(e) + r) + ", " + size;
      PrintIsUnmarked(e, known);
      MarkedIsSpelling(l, Print(e), r);
      ArrayInner(l + Print(e) + r, size);
      ContainerMatches(ARRAY, inner);
      ContainerNests(ARRAY, inner);
    case Vector(l, e, r) =>
      PrintIsUnmarked(e, known);
      MarkedIsSpelling(l, Print(e), r);
      ContainerMatches(VECTOR, l + Print(e) + r);
      ContainerNests(VECTOR, l + Print(e) + r);
  }

  /** Every text that normalises to a printed type is accepted. */
  lemma {:induction false} PrintedIsSupported(t: Type, text: string, known: set<string>)
    requires WellFormed(t, known) && Print(t) == Normalize(text)
    requires forall n :: n in known ==> Unmarked(n)
    ensures IsSupported(text, known)
    decreases t
  {
    match t
    case Scalar(n) =>
    case StdString =>
    case Known(n) =>
    case Array(l, e, r, size) =>
      PrintIsUnmarked(e, known);
      MarkedIsSpelling(l, Print(e), r);
      PrintedArray(l + Print(e) + r, size, Normalize(text));
      MarksOfArgument(l, Print(e), r, ARRAY, text);
      PrintedIsSupported(e, l + Print(e) + r, known);
      ArrayIsSupported(l + Print(e) + r, size, text, known);
    case Vector(l, e, r) =>
      PrintIsUnmarked(e, known);
      MarkedIsSpelling(l, Print(e), r);
      PrintedVector(l + Print(e) + r, Normalize(text));
      MarksOfArgument(l, Print(e), r, VECTOR, text);
      PrintedIsSupported(e, l + Print(e) + r, known);
      VectorIsSupported(l + Print(e) + r, text, known);
  }

  lemma PrintedArray(a: string, size: string, s: string)
    requires Spelling(a) && IsDigits(size) && s == ARRAY + (a + ", " + size) + ">"
    ensures Matches(ARRAY, s) && Split(Inner(ARRAY, s)) == [a, size]
  {
    ArrayInner(a, size);
    ArraySplit(a, size);
    ContainerMatches(ARRAY, a + ", " + size);
  }

  lemma PrintedVector(a: string, s: string)
    requires Spelling(a) && s == VECTOR + a + ">"
    ensures Matches(VECTOR, s) && Split(Inner(VECTOR, s)) == [a]
  {
    VectorInner(a);
    ContainerMatches(VECTOR, a);
  }

  /** Normalising the marked argument of a normalised text takes its marks off. */
  lemma MarksOfArgument(l: string, p: string, r: string, head: string, text: string)
    requires IsLeft(l) && IsRight(r) && Unmarked(p)
    requires var s := Normalize(text);
             Matches(head, s) && Split(Inner(head, s)) != [] && Split(Inner(head, s))[0] == l + p + r
    requires head != "" && head[|head| - 1] == '<'
    ensures Normalize(l + p + r) == p
  {
    NormalizeIsNormal(text);
    ArgumentIsNormal(Normalize(text), head, 0);
    MarksAreOff(l, p, r);
  }

  lemma ArrayIsSupported(a: string, size: string, text: string, known: set<string>)
    requires var s := Normalize(text); Matches(ARRAY, s) && Split(Inner(ARRAY, s)) == [a, size]
    requires IsDigits(size) && IsSupported(a, known)
    ensures IsSupported(text, known)
  {
    NormalizeIsNormal(text);
  }

  lemma VectorIsSupported(a: string, text: string, known: set<string>)
    requires var s := Normalize(text); Matches(VECTOR, s) && Split(Inner(VECTOR, s)) == [a]
    requires IsSupported(a, known)
    ensures IsSupported(text, known)
  {
    NormalizeIsNormal(text);
    HeadsDiffer(Normalize(text));
  }

  lemma HeadsDiffer(s: string)
    requires Matches(VECTOR, s)
    ensures !Matches(ARRAY, s)
  {
    PrefixChar(s, VECTOR, 5);
    PrefixChar(s, ARRAY, 5);
  }

  lemma PrefixChar(s: string, p: string, k: nat)
    requires k < |p| <= |s|
    ensures s[..|p|] == p ==> s[k] == p[k]
  {
    assert s[..|p|][k] == s[k];
  }

  // ---- Every accepted text is a printed type ----

  /** A comma at depth 0 is a cut. */
  lemma {:induction false} CutsAtComma(s: string, k: nat, depth: int)
    requires k < |s| && s[k] == ',' && Depth(s[..k], depth) == 0
    ensures Cut(s, depth) <= k
    decreases k
  {
    if k > 0 && !(s[0] == ',' && depth == 0) {
      assert s[..k][1..] == s[1..][..k - 1];
      CutsAtComma(s[1..], k - 1, DepthAfter(s[0], depth));
    }
  }

  lemma SpellingEnd(s: string)
    requires Spelling(s)
    ensures s[|s| - 1] != ','
  {
    var k := |s| - 1;
    assert Cut(s, 0) == |s| && Depth(s, 0) == 0;
    if s[k] == ',' {
      assert s == s[..k] + ",";
      DepthOfConcat(s[..k], ",", 0);
      assert ","[1..] == "";
      CutsAtComma(s, k, 0);
    }
  }

  lemma MarkedEnd(l: string, p: string, r: string)
    requires Unmarked(p) && IsRight(r)
    ensures (l + p + r)[|l + p + r| - 1] != ','
  {
    SpellingEnd(p);
    assert r == "" ==> l + p + r == l + p;
  }

  /** Every accepted text normalises to a printed type. */
  lemma {:induction false} SupportedIsPrinted(text: string, known: set<string>) returns (t: Type)
    requires IsSupported(text, known)
    requires forall n :: n in known ==> Unmarked(n)
    ensures WellFormed(t, known) && Print(t) == Normalize(text)
    decreases |Normalize(text)|
  {
    var s := Normalize(text);
    NormalizeIsNormal(text);
    if s in SCALAR_TYPES {
      t := Scalar(s);
    } else if s == "std::string" {
      t := StdString;
    } else if s in known {
      t := Known(s);
    } else if Matches(ARRAY, s) {
      ArgumentShrinks(s, ARRAY, 0);
      var element := SupportedIsPrinted(Split(Inner(ARRAY, s))[0], known);
      t := ArrayOf(s, element, known);
    } else {
      ArgumentShrinks(s, VECTOR, 0);
      var element := SupportedIsPrinted(Split(Inner(VECTOR, s))[0], known);
      t := VectorOf(s, element, known);
    }
  }

  lemma ArrayOf(s: string, element: Type, known: set<string>) returns (t: Type)
    requires Normal(s) && Matches(ARRAY, s) && WellFormed(element, known)
    requires |Split(Inner(ARRAY, s))| == 2 && IsDigits(Split(Inner(ARRAY, s))[1])
    requires Print(element) == Normalize(Split(Inner(ARRAY, s))[0])
    ensures WellFormed(t, known) && Print(t) == s
  {
    var e, size := ArrayParts(s);
    ArgumentIsNormal(s, ARRAY, 0);
    var l, r := MarksOfNormal(e);
    t := Array(l, element, r, size);
  }

  lemma VectorOf(s: string, element: Type, known: set<string>) returns (t: Type)
    requires Normal(s) && Matches(VECTOR, s) && WellFormed(element, known)
    requires |Split(Inner(VECTOR, s))| == 1 && Print(element) == Normalize(Split(Inner(VECTOR, s))[0])
    requires forall n :: n in known ==> Unmarked(n)
    ensures WellFormed(t, known) && Print(t) == s
  {
    var e := Split(Inner(VECTOR, s))[0];
    ArgumentIsNormal(s, VECTOR, 0);
    var l, r := MarksOfNormal(e);
    PrintIsUnmarked(element, known);
    VectorArgument(s, l, Print(element), r);
    t := Vector(l, element, r);
  }

  lemma VectorArgument(s: string, l: string, p: string, r: string)
    requires Normal(s) && Matches(VECTOR, s) && Split(Inner(VECTOR, s)) == [l + p + r]
    requires IsLeft(l) && IsRight(r) && Unmarked(p)
    ensures s == VECTOR + (l + p + r) + ">"
  {
    MarkedEnd(l, p, r);
    VectorPart(s);
    MatchesParts(VECTOR, s);
  }

  lemma VectorPart(s: string)
    requires Normal(s) && Matches(VECTOR, s) && |Split(Inner(VECTOR, s))| == 1
    requires var e := Split(Inner(VECTOR, s))[0]; e != "" && e[|e| - 1] != ','
    ensures Split(Inner(VECTOR, s))[0] == Inner(VECTOR, s)
  {
    var inner := Inner(VECTOR, s);
    JoinOfPieces(inner);
    assert Pieces(inner)[0] == inner;
    assert s[|VECTOR| - 1] == s[..|VECTOR|][|VECTOR| - 1] == '<';
    LastArgument(s, |VECTOR|);
  }

  /** The text between an opening bracket, or the blank behind a comma, and the closing bracket at the
      end is trimmed, unless it ends in a comma. */
  lemma LastArgument(s: string, lo: nat)
    requires Normal(s) && 0 < lo < |s| - 1 && s[|s| - 1] == '>'
    requires s[lo - 1] == '<' || s[lo - 1] == ' '
    requires var e := Strip(s[lo..|s| - 1]); e != "" && e[|e| - 1] != ','
    ensures Strip(s[lo..|s| - 1]) == s[lo..|s| - 1]
  {
    var p, k := s[lo..|s| - 1], |s| - 2;
    FirstOfArgument(s, lo);
    EndsOfPart(s, lo, k + 1);
    if IsSpace(s[k]) {
      assert k > lo && BlankAt(s, k);
      EndsOfPart(s, lo, k);
      assert p[..|p| - 1] == s[lo..k];
      BlankBehindComma(p);
    }
    TrimmedIsStripped(p);
  }

  lemma EndsOfPart(s: string, lo: nat, hi: nat)
    requires lo < hi <= |s|
    ensures s[lo..hi][0] == s[lo] && s[lo..hi][hi - lo - 1] == s[hi - 1]
  {
  }

  lemma BlankBehindComma(p: string)
    requires |p| > 1 && !IsSpace(p[0]) && p[|p| - 1] == ' ' && p[|p| - 2] == ','
    ensures Strip(p) != "" && Strip(p)[|Strip(p)| - 1] == ','
  {
    var q := p[..|p| - 1];
    assert p == "" + q + " ";
    StripPadding("", q, " ");
  }

  lemma FirstOfArgument(s: string, lo: nat)
    requires Normal(s) && 0 < lo < |s| - 1 && (s[lo - 1] == '<' || s[lo - 1] == ' ')
    ensures !IsSpace(s[lo])
  {
  }

  lemma ArrayParts(s: string) returns (e: string, size: string)
    requires Normal(s) && Matches(ARRAY, s)
    requires |Split(Inner(ARRAY, s))| == 2 && IsDigits(Split(Inner(ARRAY, s))[1])
    ensures [e, size] == Split(Inner(ARRAY, s))
    ensures s == ARRAY + (e + ", " + size) + ">"
  {
    var inner := Inner(ARRAY, s);
    var rest;
    e, rest := TwoPieces(inner);
    MatchesParts(ARRAY, s);
    size := ArrayArguments(s, e, rest);
    JoinedArguments(e, size);
  }

  lemma JoinedArguments(e: string, size: string)
    ensures e + "," + (" " + size) == e + ", " + size
  {
  }

  lemma TwoPieces(s: string) returns (a: string, b: string)
    requires |Split(s)| == 2
    ensures s == a + "," + b && Split(s) == [Strip(a), Strip(b)] && Closed(a)
  {
    var pieces := Pieces(s);
    JoinOfPieces(s);
    a, b := pieces[0], pieces[1];
    assert pieces[1..] == [b];
  }

  lemma MatchesParts(head: string, s: string)
    requires Matches(head, s)
    ensures s == head + Inner(head, s) + ">"
  {
    assert s == s[..|head|] + s[|head|..|s| - 1] + [s[|s| - 1]];
  }

  lemma ArrayArguments(s: string, e: string, rest: string) returns (size: string)
    requires Normal(s) && s == ARRAY + (e + "," + rest) + ">"
    requires Closed(e) && IsDigits(Strip(rest))
    ensures Strip(e) == e && rest == " " + size && Strip(rest) == size
  {
    var lo := |ARRAY|;
    var cut := lo + |e|;
    ArgumentPlaces(s, ARRAY, e, rest);
    FirstArgument(s, lo, cut);
    size := BehindComma(s, cut, rest);
  }

  lemma BehindComma(s: string, cut: nat, rest: string) returns (size: string)
    requires Normal(s) && cut < |s| - 1 && s[cut] == ',' && s[|s| - 1] == '>' && s[cut + 1..|s| - 1] == rest
    requires IsDigits(Strip(rest))
    ensures rest == " " + size && Strip(rest) == size
  {
    var k := StripIsPart(rest);
    assert s[cut + 1] == ' ';
    size := s[cut + 2..|s| - 1];
    assert rest == " " + size;
    StripLeftBlank(" ", size);
    LastArgument(s, cut + 2);
  }

  lemma ArgumentPlaces(s: string, head: string, e: string, rest: string)
    requires head != "" && head[|head| - 1] == '<' && s == head + (e + "," + rest) + ">"
    ensures var lo, cut := |head|, |head| + |e|;
            && cut < |s| - 1 && s[lo - 1] == '<' && s[cut] == ',' && s[|s| - 1] == '>'
            && s[lo..cut] == e && s[cut + 1..|s| - 1] == rest
  {
  }

  /** The text between an opening bracket and a cut is trimmed. */
  lemma FirstArgument(s: string, lo: nat, cut: nat)
    requires Normal(s) && 0 < lo <= cut < |s| - 1 && s[lo - 1] == '<' && s[cut] == ','
    requires Closed(s[lo..cut])
    ensures Strip(s[lo..cut]) == s[lo..cut]
  {
    if lo < cut {
      FirstOfArgument(s, lo);
      NoBlankBeforeCut(s, lo, cut);
      EndsOfPart(s, lo, cut);
    }
    TrimmedIsStripped(s[lo..cut]);
  }

  /** A blank at its end would stand behind another comma at depth 0. */
  lemma NoBlankBeforeCut(s: string, lo: nat, cut: nat)
    requires Normal(s) && 0 < lo < cut < |s| && s[cut] == ',' && !IsSpace(s[lo]) && Closed(s[lo..cut])
    ensures !IsSpace(s[cut - 1])
  {
    if IsSpace(s[cut - 1]) {
      BlankBeforeComma(s, lo, cut);
      var p := s[lo..cut];
      var k := |p| - 2;
      DepthOfConcat(p[..k], ", ", 0);
      CommaDepth(Depth(p[..k], 0));
      CutsAtComma(p, k, 0);
    }
  }

  lemma TrimmedIsStripped(p: string)
    requires Trimmed(p)
    ensures Strip(p) == p
  {
    StripPadding("", p, "");
    assert "" + p + "" == p;
  }

  lemma BlankBeforeComma(s: string, lo: nat, cut: nat)
    requires Normal(s) && 0 < lo < cut < |s| && s[cut] == ',' && !IsSpace(s[lo]) && IsSpace(s[cut - 1])
    ensures var p := s[lo..cut]; |p| >= 2 && p[|p| - 2] == ',' && p == p[..|p| - 2] + ", "
  {
    assert BlankAt(s, cut - 1);
    assert s[cut - 2] == ',' && s[cut - 1] == ' ';
    var p, k := s[lo..cut], cut - 2 - lo;
    assert p[k] == s[cut - 2] && p[k + 1] == s[cut - 1];
    assert p == p[..k] + [p[k], p[k + 1]];
  }

  lemma CommaDepth(depth: int)
    ensures Depth(", ", depth) == depth
  {
    assert ", "[1..] == " " && " "[1..] == "";
    assert Depth(" ", depth) == Depth("", depth);
  }

  /** A text is accepted exactly if it normalises to a printed type. */
  lemma SupportedIffPrinted(text: string, known: set<string>)
    requires forall n :: n in known ==> Unmarked(n)
    ensures IsSupported(text, known) <==> exists t :: WellFormed(t, known) && Print(t) == Normalize(text)
  {
    if IsSupported(text, known) {
      var t := SupportedIsPrinted(text, known);
    }
    if t :| WellFormed(t, known) && Print(t) == Normalize(text) {
      PrintedIsSupported(t, text, known);
    }
  }

  /** A vector of a class named from the global namespace, as the message headers write it. */
  lemma QualifiedElementIsSupported(n: string, known: set<string>)
    requires n in known && forall m :: m in known ==> Unmarked(m)
    requires forall i :: 0 <= i < |n| ==> !IsSpace(n[i]) && n[i] != ','
    ensures IsSupported(VECTOR + ("::" + n) + ">", known)
  {
    QualifiedType(n, known);
    QualifiedIsSolid(n);
    VectorIsNormal("::" + n);
    NormalPrintIsSupported(Vector("::", Known(n), ""), VECTOR + ("::" + n) + ">", known);
  }

  /** A printed type that is normal text is accepted as it stands. */
  lemma NormalPrintIsSupported(t: Type, s: string, known: set<string>)
    requires WellFormed(t, known) && Print(t) == s && Normal(s)
    requires forall n :: n in known ==> Unmarked(n)
    ensures IsSupported(s, known)
  {
    PrintIsUnmarked(t, known);
    UnmarkedIsKept(s);
    PrintedIsSupported(t, s, known);
  }

  lemma QualifiedIsSolid(n: string)
    requires forall i :: 0 <= i < |n| ==> !IsSpace(n[i]) && n[i] != ','
    ensures forall i :: 0 <= i < |"::" + n| ==> !IsSpace(("::" + n)[i]) && ("::" + n)[i] != ','
  {
  }

  lemma QualifiedType(n: string, known: set<string>)
    requires n in known
    ensures var t := Vector("::", Known(n), ""); WellFormed(t, known) && Print(t) == VECTOR + ("::" + n) + ">"
  {
    assert "::" + n + "" == "::" + n;
  }

  lemma VectorIsNormal(e: string)
    requires forall i :: 0 <= i < |e| ==> !IsSpace(e[i]) && e[i] != ','
    ensures Normal(VECTOR + e + ">")
  {
    var s, n := VECTOR + e + ">", |VECTOR|;
    assert forall i :: 0 <= i < n ==> !IsSpace(VECTOR[i]) && VECTOR[i] != ',';
    forall i | 0 <= i < |s| ensures !IsSpace(s[i]) && s[i] != ',' {
      assert s[i] == if i < n then VECTOR[i] else if i < n + |e| then e[i - n] else '>';
    }
    SolidIsNormal(s);
  }

  lemma UnmarkedIsKept(s: string)
    requires Normal(s) && Unmarked(s)
    ensures Normalize(s) == s
  {
    assert "" + s + "" == s;
    MarksAreOff("", s, "");
  }
}
