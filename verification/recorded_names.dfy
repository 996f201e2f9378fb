/** The namespace text that the header scanner records: what it says about the names it was joined
    from, and which namespaces are left out. */
module RecordedNames {
  import opened Namespaces
  import opened Wrappers

  /** A name as the scanner's pattern finds it, as far as colons go. */
  predicate IsName(name: string) {
    name != "" && ':' !in name
  }

  predicate AreNames(names: seq<string>) {
    forall i :: 0 <= i < |names| ==> IsName(names[i])
  }

  // ---- Cutting the text gives back the names ----

  /** The pieces between the double colons of word + s, of which word is already read. */
  function Pieces(word: string, s: string): seq<string>
    decreases |s|
  {
    if s == "" then [word]
    else if |s| > 1 && s[0] == ':' && s[1] == ':' then [word] + Pieces("", s[2..])
    else Pieces(word + [s[0]], s[1..])
  }

  lemma JoinConcat(a: seq<string>, b: seq<string>)
    requires a != [] && b != []
    ensures Join(a + b) == Join(a) + "::" + Join(b)
  {
    if |a| == 1 {
      assert (a + b)[1..] == b;
    } else {
      assert (a + b)[1..] == a[1..] + b;
      JoinConcat(a[1..], b);
      Assoc(a[0] + "::", Join(a[1..]), "::" + Join(b));
    }
  }

  lemma Assoc(x: string, y: string, z: string)
    ensures x + (y + z) == (x + y) + z
  {
  }

  /** A name in front is read whole. */
  lemma {:induction false} ReadName(word: string, name: string, rest: string)
    requires ':' !in name && (rest != "" ==> |rest| > 1 && rest[0] == ':' && rest[1] == ':')
    ensures Pieces(word, name + rest) == if rest == "" then [word + name] else [word + name] + Pieces("", rest[2..])
    decreases |name|
  {
    if name == "" {
      assert "" + rest == rest && word + "" == word;
    } else {
      var s := name + rest;
      assert s[1..] == name[1..] + rest && s[0] == name[0] != ':';
      ReadName(word + [name[0]], name[1..], rest);
      assert (word + [name[0]]) + name[1..] == word + name;
    }
  }

  /** Cutting the joined names at the double colons gives them back in order. */
  lemma {:induction false} PiecesOfJoin(names: seq<string>)
    requires names != [] && AreNames(names)
    ensures Pieces("", Join(names)) == names
  {
    var rest := if |names| == 1 then "" else "::" + Join(names[1..]);
    assert Join(names) == names[0] + rest;
    ReadName("", names[0], rest);
    assert "" + names[0] == names[0];
    if |names| > 1 {
      assert rest[2..] == Join(names[1..]);
      PiecesOfJoin(names[1..]);
      assert names == [names[0]] + names[1..];
    }
  }

  // ---- The namespaces that are left out ----

  /** The names of a namespace inside dds or inside org::eclipse::cyclonedds. */
  predicate InsideLibrary(names: seq<string>) {
    || (|names| > 1 && names[0] == "dds")
    || (|names| > 3 && names[0] == "org" && names[1] == "eclipse" && names[2] == "cyclonedds")
  }

  /** The first name of a joined text, and the rest of it, are told by the first double colon. */
  lemma FirstName(names: seq<string>, first: string, rest: string)
    requires names != [] && AreNames(names) && IsName(first)
    ensures StartsWith(Join(names), first + "::" + rest) <==>
            |names| > 1 && names[0] == first && StartsWith(Join(names[1..]), rest)
  {
    var text, prefix := Join(names), first + "::" + rest;
    if |names| > 1 {
      var tail := Join(names[1..]);
      assert text == names[0] + "::" + tail;
      if StartsWith(text, prefix) {
        SameFirst(names[0], tail, first, rest);
      }
    } else {
      assert prefix[|first|] == ':' && text == names[0];
    }
  }

  lemma SameFirst(a: string, tail: string, b: string, rest: string)
    requires ':' !in a && ':' !in b && StartsWith(a + "::" + tail, b + "::" + rest)
    ensures a == b && StartsWith(tail, rest)
  {
    var s, p := a + "::" + tail, b + "::" + rest;
    NameThenColon(a, tail);
    NameThenColon(b, rest);
    forall i | 0 <= i < |p| ensures s[i] == p[i] {
      assert s[..|p|][i] == p[i];
    }
    assert |a| == |b|;
    SameParts(a, tail, b, rest, s, p);
  }

  lemma SameParts(a: string, tail: string, b: string, rest: string, s: string, p: string)
    requires |a| == |b| && s == a + "::" + tail && p == b + "::" + rest
    requires |p| <= |s| && forall i :: 0 <= i < |p| ==> s[i] == p[i]
    ensures a == b && StartsWith(tail, rest)
  {
    assert forall i :: 0 <= i < |a| ==> a[i] == s[i] && b[i] == p[i];
    assert forall i :: 0 <= i < |rest| ==> tail[i] == s[|a| + 2 + i] && rest[i] == p[|a| + 2 + i];
  }

  lemma NameThenColon(a: string, tail: string)
    requires ':' !in a
    ensures var s := a + "::" + tail; s[|a|] == ':' && forall i :: 0 <= i < |a| ==> s[i] != ':'
  {
    forall i | 0 <= i < |a| ensures (a + "::" + tail)[i] != ':' {
      assert a[i] in a;
    }
  }

  lemma FirstOfOne(names: seq<string>, a: string)
    requires names != [] && AreNames(names) && IsName(a)
    ensures StartsWith(Join(names), a + "::") <==> |names| > 1 && names[0] == a
  {
    assert a + "::" + "" == a + "::";
    FirstName(names, a, "");
  }

  lemma FirstOfThree(names: seq<string>, a: string, b: string, c: string)
    requires names != [] && AreNames(names) && IsName(a) && IsName(b) && IsName(c)
    ensures StartsWith(Join(names), a + "::" + (b + "::" + (c + "::"))) <==>
            |names| > 3 && names[0] == a && names[1] == b && names[2] == c
  {
    FirstName(names, a, b + "::" + (c + "::"));
    if |names| > 1 {
      FirstName(names[1..], b, c + "::");
      if |names| > 2 {
        FirstOfOne(names[2..], c);
      }
    }
  }

  lemma LibraryPrefixes()
    ensures "dds" + "::" == "dds::"
    ensures "org" + "::" + ("eclipse" + "::" + ("cyclonedds" + "::")) == "org::eclipse::cyclonedds::"
    ensures IsName("dds") && IsName("org") && IsName("eclipse") && IsName("cyclonedds")
  {
  }

  /** No declaration is recorded exactly inside these two namespaces. */
  lemma InternalIff(names: seq<string>)
    requires names != [] && AreNames(names)
    ensures Internal(Join(names)) <==> InsideLibrary(names)
  {
    LibraryPrefixes();
    FirstOfOne(names, "dds");
    FirstOfThree(names, "org", "eclipse", "cyclonedds");
  }

  // ---- What is recorded ----

  /** c is the record of this line's declaration inside these names: its namespace is their text,
      outermost first, and empty outside all namespaces. */
  predicate Records(c: Candidate, names: seq<string>, line: SourceLine, number: nat) {
    && line.declaration == Some(c.declaration) && c.line == number
    && (if names == [] then c.namespace == "" else Pieces("", c.namespace) == names)
  }

  lemma RecordedIff(names: seq<string>, line: SourceLine, number: nat)
    requires AreNames(names)
    ensures Recorded(names, line, number) == [] <==> line.declaration.None? || InsideLibrary(names)
    ensures Recorded(names, line, number) != [] ==>
              |Recorded(names, line, number)| == 1 && Records(Recorded(names, line, number)[0], names, line, number)
  {
    if names != [] {
      PiecesOfJoin(names);
      InternalIff(names);
    }
  }

  /** The names of the blocks really open at line k. */
  ghost function OpenAt(lines: seq<SourceLine>, k: nat): seq<string>
    requires k <= |lines|
  {
    OpenNames(Nest(lines[..k]).blocks)
  }

  ghost predicate NamesEverywhere(lines: seq<SourceLine>) {
    forall k :: 0 <= k <= |lines| ==> AreNames(OpenAt(lines, k))
  }

  /** The line is recorded: it starts like a declaration, outside the library's namespaces. */
  ghost predicate IsRecorded(lines: seq<SourceLine>, k: nat)
    requires k < |lines|
  {
    lines[k].declaration.Some? && !InsideLibrary(OpenAt(lines, k))
  }

  /** c is the record of the line with its number. */
  ghost predicate IsRecordOf(c: Candidate, lines: seq<SourceLine>) {
    0 < c.line <= |lines| && IsRecorded(lines, c.line - 1) &&
    Records(c, OpenAt(lines, c.line - 1), lines[c.line - 1], c.line)
  }

  ghost predicate HasLine(found: seq<Candidate>, number: nat) {
    exists i :: 0 <= i < |found| && found[i].line == number
  }

  predicate Ascending(found: seq<Candidate>) {
    forall i, j :: 0 <= i < j < |found| ==> found[i].line < found[j].line
  }

  ghost predicate RecordsOf(found: seq<Candidate>, lines: seq<SourceLine>) {
    && Ascending(found)
    && (forall i :: 0 <= i < |found| ==> IsRecordOf(found[i], lines))
    && (forall k :: 0 <= k < |lines| && IsRecorded(lines, k) ==> HasLine(found, k + 1))
  }

  /** While every line is tracked, the scanner's list is, in the order of the lines, one record for each
      line that starts like a declaration outside the library, under the namespaces really open there. */
  lemma WhatIsRecorded(lines: seq<SourceLine>)
    requires Readable(lines) && AllTracked(lines) && NamesEverywhere(lines)
    ensures RecordsOf(Discovered(lines), lines)
    ensures var found := Discovered(lines); forall i, j :: 0 <= i < j < |found| ==> found[i].line < found[j].line
  {
    DeclarationsAreInTheirNamespaces(lines);
    PlacesAreRecords(lines);
  }

  lemma {:induction false} PlacesAreRecords(lines: seq<SourceLine>)
    requires NamesEverywhere(lines)
    ensures RecordsOf(Places(lines), lines)
  {
    if lines != [] {
      var k := |lines| - 1;
      SameBefore(lines, k);
      PlacesAreRecords(lines[..k]);
      OneMoreRecord(Places(lines[..k]), lines, k);
    }
  }

  lemma SameBefore(lines: seq<SourceLine>, n: nat)
    requires n <= |lines|
    ensures forall k :: 0 <= k <= n ==> OpenAt(lines[..n], k) == OpenAt(lines, k)
    ensures forall k :: 0 <= k < n ==>
      lines[..n][k] == lines[k] && (IsRecorded(lines[..n], k) <==> IsRecorded(lines, k))
    ensures forall c :: IsRecordOf(c, lines[..n]) ==> IsRecordOf(c, lines)
  {
    forall k | 0 <= k <= n ensures OpenAt(lines[..n], k) == OpenAt(lines, k) {
      assert lines[..n][..k] == lines[..k];
    }
  }

  lemma OneMoreRecord(found: seq<Candidate>, lines: seq<SourceLine>, k: nat)
    requires k == |lines| - 1 && RecordsOf(found, lines[..k]) && NamesEverywhere(lines)
    ensures RecordsOf(found + TruePlace(lines, k), lines)
  {
    SameBefore(lines, k);
    RecordedIff(OpenAt(lines, k), lines[k], k + 1);
    var last := TruePlace(lines, k);
    if last == [] {
      assert found + last == found;
    } else {
      assert last == [last[0]];
      AppendRecord(found, last[0], lines, k);
    }
  }

  lemma AppendRecord(found: seq<Candidate>, c: Candidate, lines: seq<SourceLine>, k: nat)
    requires k == |lines| - 1 && RecordsOf(found, lines[..k]) && IsRecordOf(c, lines) && c.line == k + 1
    ensures RecordsOf(found + [c], lines)
  {
    SameBefore(lines, k);
    forall i | 0 <= i < |found| ensures IsRecordOf(found[i], lines) && found[i].line < c.line {
      assert IsRecordOf(found[i], lines[..k]);
    }
    AppendLast(found, c, lines);
    forall i | 0 <= i < |lines| && IsRecorded(lines, i) ensures HasLine(found + [c], i + 1) {
      if i < k {
        assert IsRecorded(lines[..k], i) && HasLine(found, i + 1);
      }
      LineOfAll(found, c, i + 1);
    }
  }

  lemma AppendLast(found: seq<Candidate>, c: Candidate, lines: seq<SourceLine>)
    requires Ascending(found) && IsRecordOf(c, lines)
    requires forall i :: 0 <= i < |found| ==> IsRecordOf(found[i], lines) && found[i].line < c.line
    ensures Ascending(found + [c])
    ensures forall i :: 0 <= i < |found + [c]| ==> IsRecordOf((found + [c])[i], lines)
  {
  }

  lemma LineOfAll(found: seq<Candidate>, c: Candidate, number: nat)
    requires HasLine(found, number) || c.line == number
    ensures HasLine(found + [c], number)
  {
    var i := if c.line == number then |found| else var i :| 0 <= i < |found| && found[i].line == number; i;
    assert (found + [c])[i].line == number;
  }
}
