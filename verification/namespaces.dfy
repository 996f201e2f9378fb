/** The header scanner's second pass: which namespace each declaration stands in, tracked by
    counting braces line by line. */
module Namespaces {
  import opened Wrappers

  datatype Declaration = Declaration(kind: string, name: string)

  /** One name of a namespace header; inline stands before it in a nested header. */
  datatype Component = Component(name: string, isInline: bool)

  /** What happens on a line of C++, in order.  A plain header starts with the keyword and goes on
      with its names; an anonymous, inline or attributed one is not plain. */
  datatype Event =
    | Header(components: seq<Component>, plain: bool)
    | Alias(name: string)   // namespace name = ...;
    | Open
    | Close

  /** A line of stripped text: the declaration at its start, whether the line belongs to a preprocessor
      directive, and the events on it.  leads tells that nothing but white space stands before the first
      one.  A line that starts with # has no declaration and does not lead; a line that continues a
      macro may have either. */
  datatype SourceLine =
    SourceLine(declaration: Option<Declaration>, directive: bool, leads: bool, events: seq<Event>)

  datatype Candidate = Candidate(namespace: string, declaration: Declaration, line: nat)

  // ---- The scanner ----

  datatype Entry = Entry(name: string, depth: int)

  datatype Scanner = Scanner(stack: seq<Entry>, pending: seq<string>, depth: int)

  function Count(events: seq<Event>, e: Event): nat {
    if events == [] then 0 else (if events[0] == e then 1 else 0) + Count(events[1..], e)
  }

  /** The names that the scanner's pattern reads in a header: it stops behind the word inline. */
  function Shown(components: seq<Component>): seq<string> {
    if components == [] then []
    else if components[0].isInline then ["inline"]
    else [components[0].name] + Shown(components[1..])
  }

  /** What the pattern finds: only a header or an alias that the line starts with. */
  function Found(line: SourceLine): seq<string> {
    if !line.leads || line.events == [] then []
    else
      match line.events[0]
      case Header(components, plain) => if plain then Shown(components) else []
      case Alias(name) => [name]
      case _ => []
  }

  function Join(names: seq<string>): string {
    if names == [] then "" else if |names| == 1 then names[0] else names[0] + "::" + Join(names[1..])
  }

  function NamesOf(stack: seq<Entry>): (r: seq<string>)
    ensures |r| == |stack|
  {
    seq(|stack|, i requires 0 <= i < |stack| => stack[i].name)
  }

  predicate StartsWith(s: string, prefix: string) {
    |prefix| <= |s| && s[..|prefix|] == prefix
  }

  predicate Internal(namespace: string) {
    StartsWith(namespace, "dds::") || StartsWith(namespace, "org::eclipse::cyclonedds::")
  }

  /** The declaration recorded for a line that stands in the given namespace. */
  function Recorded(names: seq<string>, line: SourceLine, number: nat): seq<Candidate> {
    if line.declaration.Some? && !Internal(Join(names))
    then [Candidate(Join(names), line.declaration.value, number)]
    else []
  }

  function Entries(names: seq<string>, depth: int): (r: seq<Entry>)
    ensures |r| == |names|
  {
    seq(|names|, i requires 0 <= i < |names| => Entry(names[i], depth + i))
  }

  /** The entries left after popping while the last one is deeper than depth. */
  function Popped(stack: seq<Entry>, depth: int): seq<Entry> {
    if stack != [] && stack[|stack| - 1].depth > depth then Popped(stack[..|stack| - 1], depth) else stack
  }

  function ScanLine(s: Scanner, line: SourceLine): Scanner {
    var opening := Count(line.events, Open);
    var pending := s.pending + Found(line);
    var pushes := pending != [] && opening > 0;
    var stack := if pushes then s.stack + Entries(pending, s.depth + 1) else s.stack;
    var depth := s.depth + opening - Count(line.events, Close);
    Scanner(Popped(stack, depth), if pushes then [] else pending, depth)
  }

  function Scan(lines: seq<SourceLine>): Scanner {
    if lines == [] then Scanner([], [], 0) else ScanLine(Scan(lines[..|lines| - 1]), lines[|lines| - 1])
  }

  function Discovered(lines: seq<SourceLine>): seq<Candidate> {
    if lines == [] then []
    else
      var k := |lines| - 1;
      Discovered(lines[..k]) + Recorded(NamesOf(Scan(lines[..k]).stack), lines[k], |lines|)
  }

  /** The program: line numbers from 1, a stack of (name, depth), names waiting for their brace. */
  method DiscoverDeclarations(lines: seq<SourceLine>) returns (candidates: seq<Candidate>)
    ensures candidates == Discovered(lines)
  {
    var stack: seq<Entry>, pending: seq<string>, braceDepth := [], [], 0;
    candidates := [];
    for i := 0 to |lines|
      invariant Scanner(stack, pending, braceDepth) == Scan(lines[..i])
      invariant candidates == Discovered(lines[..i])
    {
      var line := lines[i];
      OneMoreLine(lines, i);
      candidates := candidates + Recorded(NamesOf(stack), line, i + 1);
      stack, pending, braceDepth := ReadSourceLine(stack, pending, braceDepth, line);
    }
    assert lines[..|lines|] == lines;
  }

  method ReadSourceLine(stack: seq<Entry>, pending: seq<string>, braceDepth: int, line: SourceLine)
    returns (stack': seq<Entry>, pending': seq<string>, braceDepth': int)
    ensures Scanner(stack', pending', braceDepth') == ScanLine(Scanner(stack, pending, braceDepth), line)
  {
    ScanLineCases(stack, pending, braceDepth, line);
    stack', pending' := stack, pending + Found(line);
    var opening := Count(line.events, Open);
    if pending' != [] && opening > 0 {
      stack' := stack + Entries(pending', braceDepth + 1);
      pending' := [];
    }
    braceDepth' := braceDepth + opening - Count(line.events, Close);
    stack' := PopTo(stack', braceDepth');
  }

  lemma ScanLineCases(stack: seq<Entry>, pending: seq<string>, depth: int, line: SourceLine)
    ensures var names, opening := pending + Found(line), Count(line.events, Open);
            var depth' := depth + opening - Count(line.events, Close);
            ScanLine(Scanner(stack, pending, depth), line)
            == if names != [] && opening > 0
               then Scanner(Popped(stack + Entries(names, depth + 1), depth'), [], depth')
               else Scanner(Popped(stack, depth'), names, depth')
  {
  }

  lemma OneMoreLine(lines: seq<SourceLine>, i: nat)
    requires i < |lines|
    ensures Scan(lines[..i + 1]) == ScanLine(Scan(lines[..i]), lines[i])
    ensures Discovered(lines[..i + 1])
            == Discovered(lines[..i]) + Recorded(NamesOf(Scan(lines[..i]).stack), lines[i], i + 1)
  {
    assert lines[..i + 1][..i] == lines[..i];
  }

  method PopTo(pushed: seq<Entry>, depth: int) returns (stack: seq<Entry>)
    ensures stack == Popped(pushed, depth)
  {
    stack := pushed;
    while stack != [] && stack[|stack| - 1].depth > depth
      invariant Popped(stack, depth) == Popped(pushed, depth)
    {
      stack := stack[..|stack| - 1];
    }
  }

  // ---- Depths ----

  /** Depths increase strictly from the bottom and do not exceed the brace depth. */
  predicate Ordered(stack: seq<Entry>, depth: int) {
    (forall i, j :: 0 <= i < j < |stack| ==> stack[i].depth < stack[j].depth) &&
    forall i :: 0 <= i < |stack| ==> stack[i].depth <= depth
  }

  lemma {:induction false} PoppedIsOrdered(stack: seq<Entry>, depth: int)
    requires forall i, j :: 0 <= i < j < |stack| ==> stack[i].depth < stack[j].depth
    ensures Ordered(Popped(stack, depth), depth)
    decreases |stack|
  {
    if stack != [] && stack[|stack| - 1].depth > depth {
      PoppedIsOrdered(stack[..|stack| - 1], depth);
    }
  }

  lemma ScanLineKeepsOrder(s: Scanner, line: SourceLine)
    requires Ordered(s.stack, s.depth)
    ensures var t := ScanLine(s, line); Ordered(t.stack, t.depth)
  {
    var depth := ScanLine(s, line).depth;
    PoppedIsOrdered(s.stack, depth);
    PoppedIsOrdered(s.stack + Entries(s.pending + Found(line), s.depth + 1), depth);
  }

  /** After every line of any text the depths on the stack are in order. */
  lemma {:induction false} DepthsStayOrdered(lines: seq<SourceLine>)
    ensures var s := Scan(lines); Ordered(s.stack, s.depth)
    decreases |lines|
  {
    if lines != [] {
      var k := |lines| - 1;
      DepthsStayOrdered(lines[..k]);
      ScanLineKeepsOrder(Scan(lines[..k]), lines[k]);
    }
  }

  lemma {:induction false} PoppedTail(stack: seq<Entry>, tail: seq<Entry>, depth: int)
    requires forall i :: 0 <= i < |tail| ==> tail[i].depth > depth
    ensures Popped(stack + tail, depth) == Popped(stack, depth)
    decreases |tail|
  {
    if tail == [] {
      assert stack + tail == stack;
    } else {
      var k := |tail| - 1;
      assert (stack + tail)[..|stack| + k] == stack + tail[..k];
      PoppedTail(stack, tail[..k], depth);
    }
  }

  /** As many names as there are places. */
  function Kept(names: seq<string>, places: nat): (r: seq<string>)
    ensures |r| <= places && r <= names
    ensures r == names <==> |names| <= places
  {
    if places < |names| then names[..places] else names
  }

  /** Only the names that have a brace of their own keep the depth they are given. */
  lemma PoppedEntries(stack: seq<Entry>, depth: int, names: seq<string>, end: int)
    requires end >= depth && forall i :: 0 <= i < |stack| ==> stack[i].depth <= depth
    ensures Popped(stack + Entries(names, depth + 1), end) == stack + Entries(Kept(names, end - depth), depth + 1)
  {
    var all, low := Entries(names, depth + 1), Entries(Kept(names, end - depth), depth + 1);
    var tail := all[|low|..];
    assert all == low + tail;
    assert stack + all == (stack + low) + tail;
    PoppedTail(stack + low, tail, end);
    NothingToPop(stack + low, end);
  }

  lemma NothingToPop(stack: seq<Entry>, depth: int)
    requires forall i :: 0 <= i < |stack| ==> stack[i].depth <= depth
    ensures Popped(stack, depth) == stack
  {
  }

  lemma {:induction false} PoppedIsShorter(stack: seq<Entry>, depth: int)
    ensures |Popped(stack, depth)| <= |stack|
    decreases |stack|
  {
    if stack != [] && stack[|stack| - 1].depth > depth {
      PoppedIsShorter(stack[..|stack| - 1], depth);
    }
  }

  /** A line whose brace opens waiting names keeps all of them, and the stack below, exactly if it opens
      as many more braces than it closes as there are names: each name is given a depth of its own.
      The names may wait from earlier lines. */
  lemma NamesNeedBraces(s: Scanner, line: SourceLine)
    requires forall i :: 0 <= i < |s.stack| ==> s.stack[i].depth <= s.depth
    requires s.pending + Found(line) != [] && Count(line.events, Open) > 0
    ensures var names, m := s.pending + Found(line), Count(line.events, Open) - Count(line.events, Close);
            var r := NamesOf(ScanLine(s, line).stack);
            && (m >= 0 ==> r == NamesOf(s.stack) + Kept(names, m))
            && (r == NamesOf(s.stack) + names <==> |names| <= m)
  {
    var names, m := s.pending + Found(line), Count(line.events, Open) - Count(line.events, Close);
    ScanLineCases(s.stack, s.pending, s.depth, line);
    if m >= 0 {
      NamesKept(s.stack, s.depth, names, m);
    } else {
      NamesLost(s.stack, s.depth, names, m);
    }
  }

  lemma NamesKept(stack: seq<Entry>, depth: int, names: seq<string>, m: nat)
    requires forall i :: 0 <= i < |stack| ==> stack[i].depth <= depth
    ensures var r := NamesOf(Popped(stack + Entries(names, depth + 1), depth + m));
            r == NamesOf(stack) + Kept(names, m) && (r == NamesOf(stack) + names <==> |names| <= m)
  {
    PoppedEntries(stack, depth, names, depth + m);
    NamesOfPushed(stack, Kept(names, m), depth + 1);
    assert |NamesOf(stack) + Kept(names, m)| == |stack| + |Kept(names, m)|;
    assert |NamesOf(stack) + names| == |stack| + |names|;
  }

  lemma NamesLost(stack: seq<Entry>, depth: int, names: seq<string>, m: int)
    requires m < 0 && names != []
    ensures NamesOf(Popped(stack + Entries(names, depth + 1), depth + m)) != NamesOf(stack) + names
  {
    PoppedTail(stack, Entries(names, depth + 1), depth + m);
    PoppedIsShorter(stack, depth + m);
    assert |NamesOf(stack) + names| > |stack|;
  }

  lemma NamesOfPushed(stack: seq<Entry>, names: seq<string>, depth: int)
    ensures NamesOf(stack + Entries(names, depth)) == NamesOf(stack) + names
  {
  }

  // ---- The blocks that are really open ----

  /** For each open block the names of the namespace header it belongs to, none for other blocks; and
      a header still waiting for its brace. */
  datatype Nesting = Nesting(blocks: seq<seq<string>>, waiting: Option<seq<string>>)

  function NamesIn(components: seq<Component>): (r: seq<string>)
    ensures |r| == |components|
  {
    seq(|components|, i requires 0 <= i < |components| => components[i].name)
  }

  function WaitingNames(s: Nesting): seq<string> {
    if s.waiting.Some? then s.waiting.value else []
  }

  /** None when a brace closes nothing. */
  function ReadEvents(s: Nesting, events: seq<Event>): Option<Nesting>
    decreases |events|
  {
    if events == [] then Some(s)
    else
      match events[0]
      case Header(components, _) => ReadEvents(s.(waiting := Some(NamesIn(components))), events[1..])
      case Alias(_) => ReadEvents(s, events[1..])
      case Open => ReadEvents(Nesting(s.blocks + [WaitingNames(s)], None), events[1..])
      case Close =>
        if s.blocks == [] then None
        else ReadEvents(s.(blocks := s.blocks[..|s.blocks| - 1]), events[1..])
  }

  /** A directive is no part of the nesting. */
  function ReadLine(s: Nesting, line: SourceLine): Option<Nesting> {
    if line.directive then Some(s) else ReadEvents(s, line.events)
  }

  ghost function Nest(lines: seq<SourceLine>): Nesting {
    if lines == [] then Nesting([], None)
    else
      var k := |lines| - 1;
      match ReadLine(Nest(lines[..k]), lines[k])
      case Some(s) => s
      case None => Nesting([], None)
  }

  /** The names of the open named blocks, outermost first. */
  function OpenNames(blocks: seq<seq<string>>): seq<string> {
    FirstNames(blocks, |blocks|)
  }

  function FirstNames(blocks: seq<seq<string>>, n: nat): seq<string>
    requires n <= |blocks|
  {
    if n == 0 then [] else FirstNames(blocks, n - 1) + blocks[n - 1]
  }

  /** What is recorded for line k where it really stands. */
  ghost function TruePlace(lines: seq<SourceLine>, k: nat): seq<Candidate>
    requires k < |lines|
  {
    Recorded(OpenNames(Nest(lines[..k]).blocks), lines[k], k + 1)
  }

  /** The declarations of the text, which are none in a directive. */
  ghost function TrueDeclarations(lines: seq<SourceLine>): seq<Candidate> {
    if lines == [] then []
    else
      var k := |lines| - 1;
      TrueDeclarations(lines[..k]) + if lines[k].directive then [] else TruePlace(lines, k)
  }

  /** The stack for these blocks: their names with the depth of their brace. */
  function NamedBlocks(blocks: seq<seq<string>>): seq<Entry> {
    FirstBlocks(blocks, |blocks|)
  }

  function FirstBlocks(blocks: seq<seq<string>>, n: nat): (r: seq<Entry>)
    requires n <= |blocks|
    ensures forall i :: 0 <= i < |r| ==> r[i].depth <= n
  {
    if n == 0 then [] else FirstBlocks(blocks, n - 1) + AtDepth(blocks[n - 1], n)
  }

  function AtDepth(names: seq<string>, depth: int): (r: seq<Entry>)
    ensures |r| == |names| && forall i :: 0 <= i < |r| ==> r[i] == Entry(names[i], depth)
  {
    seq(|names|, i requires 0 <= i < |names| => Entry(names[i], depth))
  }

  lemma NamesAreOpenNames(blocks: seq<seq<string>>)
    ensures NamesOf(NamedBlocks(blocks)) == OpenNames(blocks)
  {
    NamesOfFirst(blocks, |blocks|);
  }

  lemma {:induction false} NamesOfFirst(blocks: seq<seq<string>>, n: nat)
    requires n <= |blocks|
    ensures NamesOf(FirstBlocks(blocks, n)) == FirstNames(blocks, n)
  {
    if n > 0 {
      NamesOfFirst(blocks, n - 1);
    }
  }

  // ---- When the scanner keeps track ----

  predicate Agrees(c: Scanner, s: Nesting) {
    c.stack == NamedBlocks(s.blocks) && c.depth == |s.blocks| && c.pending == WaitingNames(s)
  }

  /** The blocks that counting braces takes for granted: those below the final depth stay, and of the
      new ones each belongs to one of the names, in order, as long as there are any. */
  function Assumed(blocks: seq<seq<string>>, names: seq<string>, depth: nat): (r: seq<seq<string>>)
    ensures |r| == depth
    ensures forall i :: 0 <= i < depth ==> r[i] == AssumedAt(blocks, names, i)
  {
    seq(depth, i requires 0 <= i < depth => AssumedAt(blocks, names, i))
  }

  function AssumedAt(blocks: seq<seq<string>>, names: seq<string>, i: nat): seq<string> {
    if i < |blocks| then blocks[i]
    else if i - |blocks| < |names| then [names[i - |blocks|]]
    else []
  }

  /** The line does to the real blocks what the scanner takes for granted. */
  predicate Tracked(s: Nesting, line: SourceLine) {
    ReadLine(s, line).Some? &&
    var r := ReadLine(s, line).value;
    var opening, closing := Count(line.events, Open), Count(line.events, Close);
    var names := WaitingNames(s) + Found(line);
    var depth := |s.blocks| + opening - closing;
    && depth >= 0 && r.blocks == Assumed(s.blocks, Taken(s, line), depth)
    && WaitingNames(r) == if opening > 0 then [] else names
  }

  lemma {:induction false} PoppedBlocks(blocks: seq<seq<string>>, n: nat, depth: nat)
    requires n <= |blocks|
    ensures Popped(FirstBlocks(blocks, n), depth) == FirstBlocks(blocks, if depth < n then depth else n)
  {
    if depth < n {
      PoppedTail(FirstBlocks(blocks, n - 1), AtDepth(blocks[n - 1], n), depth);
      PoppedBlocks(blocks, n - 1, depth);
    } else {
      NothingToPop(FirstBlocks(blocks, n), depth);
    }
  }

  lemma {:induction false} SameFirstBlocks(a: seq<seq<string>>, b: seq<seq<string>>, n: nat)
    requires n <= |a| && n <= |b| && forall i :: 0 <= i < n ==> a[i] == b[i]
    ensures FirstBlocks(a, n) == FirstBlocks(b, n)
  {
    if n > 0 {
      SameFirstBlocks(a, b, n - 1);
    }
  }

  /** The stack of the blocks taken for granted. */
  lemma {:induction false} FirstAssumed(blocks: seq<seq<string>>, names: seq<string>, a: seq<seq<string>>, m: nat)
    requires |blocks| <= m <= |a| && forall i :: 0 <= i < |a| ==> a[i] == AssumedAt(blocks, names, i)
    ensures FirstBlocks(a, m) == OnTop(NamedBlocks(blocks), names, |blocks|, m)
    decreases m
  {
    if m == |blocks| {
      SameFirstBlocks(a, blocks, m);
      NoneKept(NamedBlocks(blocks), names, m);
    } else {
      FirstAssumed(blocks, names, a, m - 1);
      NextAssumed(a, m, NamedBlocks(blocks), names, |blocks|);
    }
  }

  /** A stack of depth n with the names that fit below depth m on top. */
  function OnTop(stack: seq<Entry>, names: seq<string>, n: nat, m: nat): seq<Entry>
    requires n <= m
  {
    stack + Entries(Kept(names, m - n), n + 1)
  }

  lemma NoneKept(stack: seq<Entry>, names: seq<string>, n: nat)
    ensures OnTop(stack, names, n, n) == stack
  {
    assert Entries(Kept(names, 0), n + 1) == [];
  }

  lemma ConcatAssoc(a: seq<Entry>, b: seq<Entry>, c: seq<Entry>)
    ensures a + (b + c) == (a + b) + c
  {
  }

  lemma NextAssumed(a: seq<seq<string>>, m: nat, stack: seq<Entry>, names: seq<string>, n: nat)
    requires n < m <= |a| && a[m - 1] == if m - 1 - n < |names| then [names[m - 1 - n]] else []
    requires FirstBlocks(a, m - 1) == OnTop(stack, names, n, m - 1)
    ensures FirstBlocks(a, m) == OnTop(stack, names, n, m)
  {
    var k := m - 1 - n;
    var below, last := Entries(Kept(names, k), n + 1), AtDepth(a[m - 1], m);
    calc {
      FirstBlocks(a, m);
      (stack + below) + last;
      { ConcatAssoc(stack, below, last); }
      stack + (below + last);
      { OneMoreEntry(names, n, k); }
      stack + Entries(Kept(names, k + 1), n + 1);
    }
  }

  lemma OneMoreEntry(names: seq<string>, n: nat, k: nat)
    ensures Entries(Kept(names, k + 1), n + 1)
            == Entries(Kept(names, k), n + 1) + AtDepth(if k < |names| then [names[k]] else [], n + 1 + k)
  {
  }

  lemma CutStack(blocks: seq<seq<string>>, names: seq<string>, depth: nat)
    requires depth <= |blocks|
    ensures Popped(NamedBlocks(blocks) + Entries(names, |blocks| + 1), depth) == FirstBlocks(blocks, depth)
  {
    PoppedTail(NamedBlocks(blocks), Entries(names, |blocks| + 1), depth);
    PoppedBlocks(blocks, |blocks|, depth);
  }

  /** What is on the stack after a line, if it held the open blocks before. */
  lemma StackIsAssumed(blocks: seq<seq<string>>, names: seq<string>, depth: nat)
    ensures Popped(NamedBlocks(blocks) + Entries(names, |blocks| + 1), depth)
            == NamedBlocks(Assumed(blocks, names, depth))
  {
    var a, n := Assumed(blocks, names, depth), |blocks|;
    if depth <= n {
      CutStack(blocks, names, depth);
      SameFirstBlocks(blocks, a, depth);
    } else {
      PoppedEntries(NamedBlocks(blocks), n, names, depth);
      FirstAssumed(blocks, names, a, depth);
    }
  }

  /** The stack tells the blocks, since it has their depths. */
  lemma {:induction false} StackTellsBlocks(a: seq<seq<string>>, b: seq<seq<string>>, n: nat)
    requires n <= |a| && n <= |b| && FirstBlocks(a, n) == FirstBlocks(b, n)
    ensures forall i :: 0 <= i < n ==> a[i] == b[i]
  {
    if n > 0 {
      PoppedBlocks(a, n, n - 1);
      PoppedBlocks(b, n, n - 1);
      StackTellsBlocks(a, b, n - 1);
      SameTail(FirstBlocks(a, n - 1), a[n - 1], b[n - 1], n);
    }
  }

  lemma SameTail(stack: seq<Entry>, a: seq<string>, b: seq<string>, depth: int)
    requires stack + AtDepth(a, depth) == stack + AtDepth(b, depth)
    ensures a == b
  {
    var x, y, n := AtDepth(a, depth), AtDepth(b, depth), |stack|;
    assert |stack + x| == |stack + y|;
    forall i | 0 <= i < |a| ensures a[i] == b[i] {
      assert (stack + x)[n + i] == x[i] && (stack + y)[n + i] == y[i];
    }
  }

  lemma SameStackIff(a: seq<seq<string>>, b: seq<seq<string>>)
    ensures NamedBlocks(a) == NamedBlocks(b) && |a| == |b| <==> a == b
  {
    if NamedBlocks(a) == NamedBlocks(b) && |a| == |b| {
      StackTellsBlocks(a, b, |a|);
    }
  }

  /** The names whose brace is on the line. */
  function Taken(s: Nesting, line: SourceLine): seq<string> {
    if Count(line.events, Open) > 0 then WaitingNames(s) + Found(line) else []
  }

  lemma ScannedLine(c: Scanner, s: Nesting, line: SourceLine)
    requires Agrees(c, s)
    ensures var t, names := ScanLine(c, line), WaitingNames(s) + Found(line);
            && t.depth == |s.blocks| + Count(line.events, Open) - Count(line.events, Close)
            && t.pending == (if Count(line.events, Open) > 0 then [] else names)
            && (t.depth >= 0 ==> t.stack == NamedBlocks(Assumed(s.blocks, Taken(s, line), t.depth)))
  {
    ScanLineCases(c.stack, c.pending, c.depth, line);
    var taken, depth := Taken(s, line), ScanLine(c, line).depth;
    assert taken == [] ==> c.stack + Entries(taken, c.depth + 1) == c.stack;
    if depth >= 0 {
      StackIsAssumed(s.blocks, taken, depth);
    }
  }

  /** From a stack that is right, a line leads to a stack that is right exactly if it is tracked. */
  lemma LineAgreesIff(c: Scanner, s: Nesting, line: SourceLine)
    requires Agrees(c, s) && ReadLine(s, line).Some?
    ensures Agrees(ScanLine(c, line), ReadLine(s, line).value) <==> Tracked(s, line)
  {
    ScannedLine(c, s, line);
    SameResultIff(ScanLine(c, line), ReadLine(s, line).value, s.blocks, Taken(s, line));
  }

  lemma SameResultIff(t: Scanner, r: Nesting, blocks: seq<seq<string>>, taken: seq<string>)
    requires t.depth >= 0 ==> t.stack == NamedBlocks(Assumed(blocks, taken, t.depth))
    ensures Agrees(t, r) <==>
            t.depth >= 0 && r.blocks == Assumed(blocks, taken, t.depth) && WaitingNames(r) == t.pending
  {
    if t.depth >= 0 {
      SameStackIff(r.blocks, Assumed(blocks, taken, t.depth));
    }
  }

  ghost predicate Readable(lines: seq<SourceLine>) {
    forall k :: 0 <= k < |lines| ==> ReadLine(Nest(lines[..k]), lines[k]).Some?
  }

  ghost predicate AllTracked(lines: seq<SourceLine>) {
    forall k :: 0 <= k < |lines| ==> Tracked(Nest(lines[..k]), lines[k])
  }

  ghost predicate AgreesAfter(lines: seq<SourceLine>, k: nat)
    requires k <= |lines|
  {
    Agrees(Scan(lines[..k]), Nest(lines[..k]))
  }

  lemma NextAgrees(lines: seq<SourceLine>, k: nat)
    requires k < |lines| && ReadLine(Nest(lines[..k]), lines[k]).Some? && AgreesAfter(lines, k)
    ensures AgreesAfter(lines, k + 1) <==> Tracked(Nest(lines[..k]), lines[k])
  {
    NextLine(lines, k);
    LineAgreesIff(Scan(lines[..k]), Nest(lines[..k]), lines[k]);
  }

  lemma NextLine(lines: seq<SourceLine>, k: nat)
    requires k < |lines| && ReadLine(Nest(lines[..k]), lines[k]).Some?
    ensures Scan(lines[..k + 1]) == ScanLine(Scan(lines[..k]), lines[k])
    ensures Nest(lines[..k + 1]) == ReadLine(Nest(lines[..k]), lines[k]).value
  {
    assert lines[..k + 1][..k] == lines[..k];
  }

  /** Over any text whose braces match, the stack is that of the really open blocks after every line
      exactly if every line is tracked. */
  lemma AlwaysAgreesIff(lines: seq<SourceLine>)
    requires Readable(lines)
    ensures (forall k :: 0 <= k <= |lines| ==> AgreesAfter(lines, k)) <==> AllTracked(lines)
  {
    if AllTracked(lines) {
      TrackedLinesAgree(lines);
    } else {
      var k :| 0 <= k < |lines| && !Tracked(Nest(lines[..k]), lines[k]);
      if AgreesAfter(lines, k) {
        NextAgrees(lines, k);
      }
      assert !(AgreesAfter(lines, k) && AgreesAfter(lines, k + 1));
    }
  }

  lemma TrackedLinesAgree(lines: seq<SourceLine>)
    requires Readable(lines) && AllTracked(lines)
    ensures forall k :: 0 <= k <= |lines| ==> AgreesAfter(lines, k)
  {
    forall k | 0 <= k <= |lines| ensures AgreesAfter(lines, k) {
      TrackedLinesAgreeAfter(lines, k);
    }
  }

  lemma {:induction false} TrackedLinesAgreeAfter(lines: seq<SourceLine>, k: nat)
    requires k <= |lines| && Readable(lines) && AllTracked(lines)
    ensures AgreesAfter(lines, k)
  {
    if k > 0 {
      TrackedLinesAgreeAfter(lines, k - 1);
      NextAgrees(lines, k - 1);
    } else {
      assert lines[..0] == [];
    }
  }

  /** The declarations found, each where it really stands. */
  ghost function Places(lines: seq<SourceLine>): seq<Candidate> {
    if lines == [] then []
    else
      var k := |lines| - 1;
      Places(lines[..k]) + TruePlace(lines, k)
  }

  /** No line of a directive, such as the body of a macro, starts like a declaration. */
  ghost predicate NoMacroDeclares(lines: seq<SourceLine>) {
    forall k :: 0 <= k < |lines| && lines[k].directive ==> TruePlace(lines, k) == []
  }

  /** Then each declaration found is recorded with exactly the named namespace blocks open at its line,
      and these are the declarations of the text exactly if no macro declares anything. */
  lemma DeclarationsAreInTheirNamespaces(lines: seq<SourceLine>)
    requires Readable(lines) && AllTracked(lines)
    ensures Discovered(lines) == Places(lines)
    ensures Discovered(lines) == TrueDeclarations(lines) <==> NoMacroDeclares(lines)
  {
    TrackedLinesAgree(lines);
    for k := 0 to |lines|
      invariant Discovered(lines[..k]) == Places(lines[..k])
    {
      NextDeclaration(lines, k);
    }
    assert lines[..|lines|] == lines;
    PlacesAreTrueIff(lines);
  }

  lemma {:induction false} PlacesAreTrueIff(lines: seq<SourceLine>)
    ensures |TrueDeclarations(lines)| <= |Places(lines)|
    ensures Places(lines) == TrueDeclarations(lines) <==> NoMacroDeclares(lines)
  {
    if lines != [] {
      var k := |lines| - 1;
      PlacesAreTrueIff(lines[..k]);
      OneMoreDeclares(lines);
      SameHalves(TrueDeclarations(lines[..k]), Places(lines[..k]),
                 if lines[k].directive then [] else TruePlace(lines, k), TruePlace(lines, k));
    }
  }

  lemma OneMoreDeclares(lines: seq<SourceLine>)
    requires lines != []
    ensures var k := |lines| - 1;
            NoMacroDeclares(lines) <==>
            NoMacroDeclares(lines[..k]) && (lines[k].directive ==> TruePlace(lines, k) == [])
  {
    var k := |lines| - 1;
    forall i | 0 <= i < k ensures lines[..k][i] == lines[i] && TruePlace(lines[..k], i) == TruePlace(lines, i) {
      assert lines[..k][..i] == lines[..i];
    }
  }

  lemma SameHalves(a: seq<Candidate>, b: seq<Candidate>, x: seq<Candidate>, y: seq<Candidate>)
    requires |a| <= |b| && |x| <= |y|
    ensures a + x == b + y <==> a == b && x == y
  {
    if a + x == b + y {
      assert |a + x| == |b + y|;
      assert (a + x)[..|a|] == a && (b + y)[..|b|] == b;
      assert (a + x)[|a|..] == x && (b + y)[|b|..] == y;
    }
  }

  lemma NextDeclaration(lines: seq<SourceLine>, k: nat)
    requires k < |lines| && AgreesAfter(lines, k) && Discovered(lines[..k]) == Places(lines[..k])
    ensures Discovered(lines[..k + 1]) == Places(lines[..k + 1])
  {
    OneMoreLine(lines, k);
    assert lines[..k + 1][..k] == lines[..k];
    NamesAreOpenNames(Nest(lines[..k]).blocks);
  }

  // ---- Which lines are tracked ----

  /** Braces and anonymous namespaces. */
  predicate Nameless(events: seq<Event>) {
    forall i :: 0 <= i < |events| ==>
                  events[i] == Open || events[i] == Close || (events[i].Header? && events[i].components == [])
  }

  /** The lowest number of open blocks while reading the events, and the number at the end. */
  function Lowest(n: int, events: seq<Event>): int
    decreases |events|
  {
    if events == [] then n
    else
      var next := Lowest(n + Count([events[0]], Open) - Count([events[0]], Close), events[1..]);
      if next < n then next else n
  }

  function Final(n: int, events: seq<Event>): int {
    n + Count(events, Open) - Count(events, Close)
  }

  /** No named block is closed on the line and its depth reached again on the same line. */
  predicate NoNameReplaced(blocks: seq<seq<string>>, events: seq<Event>) {
    var low, end := Lowest(|blocks|, events), Final(|blocks|, events);
    forall i :: 0 <= i < |blocks| && low <= i < end ==> blocks[i] == []
  }

  function Unnamed(n: nat): (r: seq<seq<string>>)
    ensures |r| == n && forall i :: 0 <= i < n ==> r[i] == []
  {
    seq(n, _ => [])
  }

  lemma CountFirst(events: seq<Event>, e: Event)
    requires events != []
    ensures Count(events, e) == Count([events[0]], e) + Count(events[1..], e)
    ensures Count([events[0]], e) == if events[0] == e then 1 else 0
  {
    assert [events[0]][1..] == [];
  }

  /** One event of the two counts. */
  lemma FirstEvent(n: int, events: seq<Event>)
    requires events != []
    ensures var m := if events[0] == Open then n + 1 else if events[0] == Close then n - 1 else n;
            && Final(n, events) == Final(m, events[1..])
            && Lowest(n, events) == if Lowest(m, events[1..]) < n then Lowest(m, events[1..]) else n
  {
    CountFirst(events, Open);
    CountFirst(events, Close);
  }

  /** What reading the events leaves: the blocks cut at the lowest point, and unnamed ones on top. */
  ghost predicate Cuts(s: Nesting, events: seq<Event>) {
    ReadEvents(s, events).Some? &&
    var low, end, r := Lowest(|s.blocks|, events), Final(|s.blocks|, events), ReadEvents(s, events).value;
    && 0 <= low <= |s.blocks| && low <= end && WaitingNames(r) == []
    && r.blocks == s.blocks[..low] + Unnamed(end - low)
  }

  /** Reading nameless events does that. */
  lemma {:induction false} ReadingCuts(s: Nesting, events: seq<Event>)
    requires Nameless(events) && WaitingNames(s) == [] && ReadEvents(s, events).Some?
    ensures Cuts(s, events)
    decreases |events|
  {
    if events == [] {
      assert s.blocks[..|s.blocks|] + Unnamed(0) == s.blocks;
    } else if events[0] == Open {
      ReadingCuts(Nesting(s.blocks + [[]], None), events[1..]);
      OpenCuts(s, events);
    } else if events[0] == Close {
      ReadingCuts(s.(blocks := s.blocks[..|s.blocks| - 1]), events[1..]);
      CloseCuts(s, events);
    } else {
      ReadingCuts(s.(waiting := Some(NamesIn(events[0].components))), events[1..]);
      FirstEvent(|s.blocks|, events);
    }
  }

  lemma OpenCuts(s: Nesting, events: seq<Event>)
    requires WaitingNames(s) == [] && events != [] && events[0] == Open
    requires Cuts(Nesting(s.blocks + [[]], None), events[1..])
    ensures Cuts(s, events)
  {
    FirstEvent(|s.blocks|, events);
    CutOfOpened(s.blocks, Lowest(|s.blocks| + 1, events[1..]), Final(|s.blocks| + 1, events[1..]));
  }

  lemma CloseCuts(s: Nesting, events: seq<Event>)
    requires events != [] && events[0] == Close && s.blocks != []
    requires Cuts(s.(blocks := s.blocks[..|s.blocks| - 1]), events[1..])
    ensures Cuts(s, events)
  {
    FirstEvent(|s.blocks|, events);
    var below := s.blocks[..|s.blocks| - 1];
    var low := Lowest(|below|, events[1..]);
    assert below[..low] == s.blocks[..low];
  }

  lemma CutOfOpened(blocks: seq<seq<string>>, low: nat, end: nat)
    requires low <= |blocks| + 1 && low <= end
    ensures (blocks + [[]])[..low] + Unnamed(end - low) ==
            if low <= |blocks| then blocks[..low] + Unnamed(end - low) else blocks[..|blocks|] + Unnamed(end - |blocks|)
  {
  }

  lemma CutIsAssumedIff(blocks: seq<seq<string>>, low: nat, end: nat)
    requires low <= |blocks| && low <= end
    ensures blocks[..low] + Unnamed(end - low) == Assumed(blocks, [], end)
            <==> forall i :: 0 <= i < |blocks| && low <= i < end ==> blocks[i] == []
  {
    var cut, a := blocks[..low] + Unnamed(end - low), Assumed(blocks, [], end);
    if cut == a {
      forall i | 0 <= i < |blocks| && low <= i < end ensures blocks[i] == [] {
        assert cut[i] == a[i];
      }
    }
  }

  /** A line without names, and no name waiting: tracked exactly if no named block is replaced. */
  lemma NamelessLineIff(s: Nesting, line: SourceLine)
    requires !line.directive && Nameless(line.events) && WaitingNames(s) == [] && ReadLine(s, line).Some?
    ensures Tracked(s, line) <==> NoNameReplaced(s.blocks, line.events)
  {
    ReadingCuts(s, line.events);
    CutIsAssumedIff(s.blocks, Lowest(|s.blocks|, line.events), Final(|s.blocks|, line.events));
    assert Found(line) == [] && [] + Found(line) == [];
  }

  /** A plain header that the pattern reads as it stands. */
  function NamespaceHeader(names: seq<string>): Event {
    Header(seq(|names|, i requires 0 <= i < |names| => Component(names[i], false)), true)
  }

  lemma HeaderShows(names: seq<string>)
    ensures Shown(NamespaceHeader(names).components) == NamesIn(NamespaceHeader(names).components) == names
  {
    AllShown(NamespaceHeader(names).components);
    assert NamesIn(NamespaceHeader(names).components) == names;
  }

  /** A line on which names get their brace, before anything else happens: their header is at the start
      of the line or waits from an earlier one. */
  predicate OpensNames(s: Nesting, line: SourceLine, names: seq<string>, rest: seq<Event>) {
    && !line.directive && Nameless(rest) && names != []
    && ((line.leads && s.waiting.None? && line.events == [NamespaceHeader(names)] + ([Open] + rest)) ||
        (s.waiting == Some(names) && line.events == [Open] + rest))
  }

  lemma ReadHeader(s: Nesting, components: seq<Component>, plain: bool, rest: seq<Event>)
    ensures var e := [Header(components, plain)] + ([Open] + rest);
            && e[0] == Header(components, plain)
            && ReadEvents(s, e) == ReadEvents(Nesting(s.blocks + [NamesIn(components)], None), rest)
            && Count(e, Open) == 1 + Count(rest, Open) && Count(e, Close) == Count(rest, Close)
  {
    var fromBrace := [Event.Open] + rest;
    var e := [Header(components, plain)] + fromBrace;
    assert fromBrace[1..] == rest && e[1..] == fromBrace;
    CountFirst(fromBrace, Open);
    CountFirst(fromBrace, Close);
    CountFirst(e, Open);
    CountFirst(e, Close);
    assert ReadEvents(s, e) == ReadEvents(s.(waiting := Some(NamesIn(components))), fromBrace);
  }

  lemma OpensNamesReads(s: Nesting, line: SourceLine, names: seq<string>, rest: seq<Event>)
    requires OpensNames(s, line, names, rest)
    ensures WaitingNames(s) + Found(line) == names
    ensures ReadLine(s, line) == ReadEvents(Nesting(s.blocks + [names], None), rest)
    ensures Count(line.events, Open) == 1 + Count(rest, Open) && Count(line.events, Close) == Count(rest, Close)
  {
    HeaderShows(names);
    assert [] + names == names + [] == names;
    if s.waiting.None? {
      ReadHeader(s, NamespaceHeader(names).components, true, rest);
    } else {
      var fromBrace := [Event.Open] + rest;
      assert fromBrace[1..] == rest;
      CountFirst(fromBrace, Open);
      CountFirst(fromBrace, Close);
      assert line.events[0] == Open;
    }
  }

  lemma OpensNamesResult(s: Nesting, line: SourceLine, names: seq<string>, rest: seq<Event>)
    requires OpensNames(s, line, names, rest) && ReadLine(s, line).Some?
    ensures var blocks := s.blocks + [names];
            var low, end := Lowest(|blocks|, rest), Final(|blocks|, rest);
            && 0 <= low <= |blocks| && low <= end
            && (Tracked(s, line) <==> blocks[..low] + Unnamed(end - low) == Assumed(s.blocks, names, end))
  {
    OpensNamesReads(s, line, names, rest);
    ReadingCuts(Nesting(s.blocks + [names], None), rest);
  }

  /** Such a line is tracked exactly if what follows replaces no named block, the new one included, and,
      when there are several names, the new block is closed again and its depth not kept. */
  lemma OpensNamesIff(s: Nesting, line: SourceLine, names: seq<string>, rest: seq<Event>)
    requires OpensNames(s, line, names, rest) && ReadLine(s, line).Some?
    ensures Tracked(s, line) <==>
            NoNameReplaced(s.blocks + [names], rest) &&
            (|names| == 1 || Final(|s.blocks| + 1, rest) <= |s.blocks|)
  {
    var n := |s.blocks| + 1;
    OpensNamesResult(s, line, names, rest);
    CutIsNamedIff(s.blocks, names, Lowest(n, rest), Final(n, rest));
  }

  lemma CutIsNamedIff(below: seq<seq<string>>, names: seq<string>, low: nat, end: nat)
    requires names != [] && low <= |below| + 1 && low <= end
    ensures var blocks := below + [names];
            blocks[..low] + Unnamed(end - low) == Assumed(below, names, end)
            <==> (forall i :: 0 <= i < |blocks| && low <= i < end ==> blocks[i] == []) &&
                 (|names| == 1 || end <= |below|)
  {
    var n, blocks := |below|, below + [names];
    var cut, a := blocks[..low] + Unnamed(end - low), Assumed(below, names, end);
    if cut == a {
      forall i | 0 <= i < |blocks| && low <= i < end ensures blocks[i] == [] {
        assert cut[i] == a[i];
      }
      if end > n {
        assert cut[n] == a[n] == [names[0]];
      }
    }
    if (forall i :: 0 <= i < |blocks| && low <= i < end ==> blocks[i] == []) && (|names| == 1 || end <= n) {
      if end > n {
        assert blocks[n] == names == [names[0]];
      }
      forall i | 0 <= i < end ensures cut[i] == a[i] {
        assert low <= i < |blocks| ==> blocks[i] == [];
      }
    }
  }

  /** A header that waits for its brace, of any number of names, is tracked. */
  lemma WaitingHeaderIsTracked(s: Nesting, line: SourceLine, components: seq<Component>)
    requires !line.directive && line.leads && s.waiting.None? && line.events == [Header(components, true)]
    requires forall i :: 0 <= i < |components| ==> !components[i].isInline
    ensures Tracked(s, line)
  {
    AllShown(components);
    CountFirst(line.events, Open);
    CountFirst(line.events, Close);
    assert line.events[1..] == [] && [] + Found(line) == Found(line);
    assert ReadEvents(s, line.events) == Some(s.(waiting := Some(NamesIn(components))));
    assert Assumed(s.blocks, [], |s.blocks|) == s.blocks;
  }

  lemma {:induction false} AllShown(components: seq<Component>)
    requires forall i :: 0 <= i < |components| ==> !components[i].isInline
    ensures Shown(components) == NamesIn(components)
  {
    if components != [] {
      AllShown(components[1..]);
    }
  }

  /** So is a line without events. */
  lemma QuietLineIsTracked(s: Nesting, line: SourceLine)
    requires line.events == []
    ensures Tracked(s, line)
  {
    assert Assumed(s.blocks, [], |s.blocks|) == s.blocks;
    assert WaitingNames(s) + [] == WaitingNames(s);
  }

  /** A line of a directive is tracked exactly if its braces balance, and there are none and no name is
      found, or no name waits for one. */
  lemma DirectiveLineIff(s: Nesting, line: SourceLine)
    requires line.directive
    ensures Tracked(s, line) <==>
            Count(line.events, Open) == Count(line.events, Close) &&
            (if Count(line.events, Open) == 0 then Found(line) == [] else WaitingNames(s) == [])
  {
    var opening, closing := Count(line.events, Open), Count(line.events, Close);
    if opening == closing {
      assert Assumed(s.blocks, Taken(s, line), |s.blocks|) == s.blocks;
    }
    assert |WaitingNames(s) + Found(line)| == |WaitingNames(s)| + |Found(line)|;
    assert Found(line) == [] ==> WaitingNames(s) + Found(line) == WaitingNames(s);
  }

  /** Opening braces come before closing ones, as on every line with at most one brace. */
  predicate OpensFirst(events: seq<Event>) {
    forall i, j :: 0 <= i < j < |events| ==> !(events[i] == Close && events[j] == Open)
  }

  lemma {:induction false} LowestOfOpensFirst(n: int, events: seq<Event>)
    requires OpensFirst(events)
    ensures Lowest(n, events) == if Final(n, events) < n then Final(n, events) else n
    ensures events != [] && events[0] == Close ==> Count(events, Open) == 0
    decreases |events|
  {
    if events != [] {
      CountFirst(events, Open);
      CountFirst(events, Close);
      if events[0] == Close {
        NoOpens(events[1..]);
      }
      LowestOfOpensFirst(n + Count([events[0]], Open) - Count([events[0]], Close), events[1..]);
    }
  }

  lemma {:induction false} NoOpens(events: seq<Event>)
    requires forall i :: 0 <= i < |events| ==> events[i] != Open
    ensures Count(events, Open) == 0
    decreases |events|
  {
    if events != [] {
      NoOpens(events[1..]);
    }
  }

  lemma OpensFirstReplacesNoName(blocks: seq<seq<string>>, events: seq<Event>)
    requires OpensFirst(events)
    ensures NoNameReplaced(blocks, events)
  {
    LowestOfOpensFirst(|blocks|, events);
  }

  /** The shapes of lines on which the tracker can be relied on. */
  ghost predicate Simple(s: Nesting, line: SourceLine) {
    || line.events == []
    || (line.directive && Count(line.events, Open) == 0 && Count(line.events, Close) == 0 && Found(line) == [])
    || (!line.directive && Nameless(line.events) && WaitingNames(s) == [] && OpensFirst(line.events))
    || (exists name, rest :: OpensNames(s, line, [name], rest) && OpensFirst(rest))
    || (exists names :: !line.directive && line.leads && s.waiting.None? && line.events == [NamespaceHeader(names)])
  }

  /** On such lines alone, with at most one brace each for instance, and each one-name header followed
      by its own brace first, every declaration found is recorded where it stands. */
  lemma SimpleTextIsTracked(lines: seq<SourceLine>)
    requires Readable(lines)
    requires forall k :: 0 <= k < |lines| ==> Simple(Nest(lines[..k]), lines[k])
    ensures AllTracked(lines) && Discovered(lines) == Places(lines)
  {
    forall k | 0 <= k < |lines| ensures Tracked(Nest(lines[..k]), lines[k]) {
      SimpleLineIsTracked(Nest(lines[..k]), lines[k]);
    }
    DeclarationsAreInTheirNamespaces(lines);
  }

  lemma SimpleLineIsTracked(s: Nesting, line: SourceLine)
    requires Simple(s, line) && ReadLine(s, line).Some?
    ensures Tracked(s, line)
  {
    if line.events == [] {
      QuietLineIsTracked(s, line);
    } else if line.directive {
      DirectiveLineIff(s, line);
    } else if Nameless(line.events) && WaitingNames(s) == [] && OpensFirst(line.events) {
      OpensFirstReplacesNoName(s.blocks, line.events);
      NamelessLineIff(s, line);
    } else if name, rest :| OpensNames(s, line, [name], rest) && OpensFirst(rest) {
      OpensFirstReplacesNoName(s.blocks + [[name]], rest);
      OpensNamesIff(s, line, [name], rest);
    } else {
      var names :| line.events == [NamespaceHeader(names)];
      WaitingHeaderIsTracked(s, line, NamespaceHeader(names).components);
    }
  }

  // ---- Lines that mislead the scanner ----

  lemma OpenNamesSnoc(blocks: seq<seq<string>>, names: seq<string>)
    ensures OpenNames(blocks + [names]) == OpenNames(blocks) + names
  {
    SameFirstNames(blocks + [names], blocks, |blocks|);
  }

  lemma {:induction false} SameFirstNames(a: seq<seq<string>>, b: seq<seq<string>>, n: nat)
    requires n <= |a| && n <= |b| && forall i :: 0 <= i < n ==> a[i] == b[i]
    ensures FirstNames(a, n) == FirstNames(b, n)
  {
    if n > 0 {
      SameFirstNames(a, b, n - 1);
    }
  }

  /** From a right stack, names that get a brace are put on top of it. */
  lemma PushedOnRightStack(c: Scanner, s: Nesting, line: SourceLine, names: seq<string>)
    requires c.stack == NamedBlocks(s.blocks) && c.depth == |s.blocks|
    requires c.pending + Found(line) == names && names != []
    requires Count(line.events, Open) > 0 && Count(line.events, Close) == 0
    ensures NamesOf(ScanLine(c, line).stack) == OpenNames(s.blocks) + Kept(names, Count(line.events, Open))
  {
    NamesAreOpenNames(s.blocks);
    NamesNeedBraces(c, line);
  }

  /** The line namespace a { namespace b { : the second header is not seen. */
  lemma SecondHeaderIsMissed(c: Scanner, s: Nesting, a: string, b: string)
    requires Agrees(c, s) && s.waiting.None?
    ensures var line := SourceLine(None, false, true,
                                   [NamespaceHeader([a])] + ([Open] + ([NamespaceHeader([b])] + ([Open] + []))));
            && NamesOf(ScanLine(c, line).stack) == OpenNames(s.blocks) + [a]
            && ReadLine(s, line).Some? && OpenNames(ReadLine(s, line).value.blocks) == OpenNames(s.blocks) + [a] + [b]
  {
    var second := [NamespaceHeader([b])] + ([Event.Open] + []);
    var line := SourceLine(None, false, true, [NamespaceHeader([a])] + ([Open] + second));
    HeaderShows([a]);
    HeaderShows([b]);
    var inA := Nesting(s.blocks + [[a]], None);
    ReadHeader(s, NamespaceHeader([a]).components, true, second);
    ReadHeader(inA, NamespaceHeader([b]).components, true, []);
    PushedOnRightStack(c, s, line, [a]);
    OpenNamesSnoc(s.blocks, [a]);
    OpenNamesSnoc(inA.blocks, [b]);
  }

  /** The line inline namespace a { , or one with an attribute in front of the name: not seen at all. */
  lemma UnplainHeaderIsMissed(c: Scanner, s: Nesting, a: string)
    requires Agrees(c, s) && s.waiting.None?
    ensures var line := SourceLine(None, false, true, [Header([Component(a, false)], false)] + ([Open] + []));
            && NamesOf(ScanLine(c, line).stack) == OpenNames(s.blocks)
            && ReadLine(s, line).Some? && OpenNames(ReadLine(s, line).value.blocks) == OpenNames(s.blocks) + [a]
  {
    assert NamesIn([Component(a, false)]) == [a];
    var line := SourceLine(None, false, true, [Header([Component(a, false)], false)] + ([Open] + []));
    ReadHeader(s, [Component(a, false)], false, []);
    ScanLineCases(c.stack, c.pending, c.depth, line);
    NothingToPop(c.stack, c.depth + 1);
    NamesAreOpenNames(s.blocks);
    OpenNamesSnoc(s.blocks, [a]);
  }

  lemma OpenBrace(s: Nesting)
    ensures ReadEvents(s, [Open]) == Some(Nesting(s.blocks + [WaitingNames(s)], None))
    ensures Count([Open], Open) == 1 && Count([Open], Close) == 0
  {
    assert [Event.Open][1..] == [];
  }

  /** A brace that opens, or misses, what waits from the line before. */
  lemma WaitingPushed(c: Scanner, s: Nesting, names: seq<string>)
    requires c.stack == NamedBlocks(s.blocks) && c.depth == |s.blocks| && c.pending == names != []
    ensures var brace := SourceLine(None, false, true, [Open]);
            && NamesOf(ScanLine(c, brace).stack) == OpenNames(s.blocks) + Kept(names, 1)
            && ReadLine(s, brace).Some?
            && OpenNames(ReadLine(s, brace).value.blocks) == OpenNames(s.blocks) + WaitingNames(s)
  {
    OpenBrace(s);
    assert names + [] == names;
    PushedOnRightStack(c, s, SourceLine(None, false, true, [Open]), names);
    OpenNamesSnoc(s.blocks, WaitingNames(s));
  }

  /** The line namespace a = b; : its name is given to the next block, whatever that is. */
  lemma AliasNamesABlock(c: Scanner, s: Nesting, a: string)
    requires Agrees(c, s) && s.waiting.None?
    ensures var line, brace := SourceLine(None, false, true, [Alias(a)]), SourceLine(None, false, true, [Open]);
            && NamesOf(ScanLine(ScanLine(c, line), brace).stack) == OpenNames(s.blocks) + [a]
            && ReadLine(s, line) == Some(s) && ReadLine(s, brace).Some?
            && OpenNames(ReadLine(s, brace).value.blocks) == OpenNames(s.blocks)
  {
    var line := SourceLine(None, false, true, [Alias(a)]);
    assert line.events[1..] == [] && ReadEvents(s, line.events) == Some(s);
    NameWaits(c, s, line, a);
  }

  lemma SameAssumed(blocks: seq<seq<string>>)
    ensures Assumed(blocks, [], |blocks|) == blocks
  {
  }

  /** A header a::b with its brace on the next line: only a is kept. */
  lemma NestedHeaderIsCut(c: Scanner, s: Nesting, a: string, b: string)
    requires Agrees(c, s) && s.waiting.None?
    ensures var line := SourceLine(None, false, true, [NamespaceHeader([a, b])]);
            var brace := SourceLine(None, false, true, [Open]);
            && NamesOf(ScanLine(ScanLine(c, line), brace).stack) == OpenNames(s.blocks) + [a]
            && ReadLine(s, line).Some? && ReadLine(ReadLine(s, line).value, brace).Some?
            && OpenNames(ReadLine(ReadLine(s, line).value, brace).value.blocks) == OpenNames(s.blocks) + [a, b]
  {
    var both := NamespaceHeader([a, b]).components;
    var line := SourceLine(None, false, true, [Header(both, true)]);
    HeaderShows([a, b]);
    assert line.events[1..] == [];
    var t := Nesting(s.blocks, Some([a, b]));
    assert ReadEvents(s, line.events) == Some(t);
    WaitingHeaderIsTracked(s, line, both);
    LineAgreesIff(c, s, line);
    WaitingPushed(ScanLine(c, line), t, [a, b]);
    assert Kept([a, b], 1) == [a];
  }

  /** A header a::inline b: the word inline waits for a brace in the place of b. */
  lemma InlineIsTakenForAName(c: Scanner, s: Nesting, a: string, b: string)
    requires Agrees(c, s) && s.waiting.None?
    ensures var line := SourceLine(None, false, true, [Header([Component(a, false), Component(b, true)], true)]);
            ScanLine(c, line).pending == [a, "inline"] && ReadLine(s, line) == Some(s.(waiting := Some([a, b])))
  {
    var parts := [Component(a, false), Component(b, true)];
    var events := [Header(parts, true)];
    TwoComponents(a, b);
    assert events[1..] == [];
    assert ReadEvents(s, events) == Some(s.(waiting := Some([a, b])));
    CountFirst(events, Open);
    ScannedLine(c, s, SourceLine(None, false, true, events));
    assert [] + [a, "inline"] == [a, "inline"];
  }

  lemma TwoComponents(a: string, b: string)
    ensures var parts := [Component(a, false), Component(b, true)];
            Shown(parts) == [a, "inline"] && NamesIn(parts) == [a, b]
  {
    var parts := [Component(a, false), Component(b, true)];
    assert parts[1..] == [Component(b, true)];
    assert Shown(parts) == [a] + Shown(parts[1..]);
  }

  /** A closing brace in a preprocessor line takes the innermost block off. */
  lemma MacroBraceCloses(c: Scanner, s: Nesting)
    requires Agrees(c, s) && s.blocks != []
    ensures var line := SourceLine(None, true, false, [Close]);
            && NamesOf(ScanLine(c, line).stack) == OpenNames(s.blocks[..|s.blocks| - 1])
            && ReadLine(s, line) == Some(s)
  {
    var line, k := SourceLine(None, true, false, [Close]), |s.blocks| - 1;
    assert [Event.Close][1..] == [];
    assert Count([Close], Close) == 1 && Count([Close], Open) == 0;
    ScannedLine(c, s, line);
    assert Assumed(s.blocks, [], k) == s.blocks[..k];
    NamesAreOpenNames(s.blocks[..k]);
  }

  /** A line of a macro that starts like the header namespace a: the name is given to the next block. */
  lemma MacroHeaderNamesABlock(c: Scanner, s: Nesting, a: string)
    requires Agrees(c, s) && s.waiting.None?
    ensures var line := SourceLine(None, true, true, [NamespaceHeader([a])]);
            var brace := SourceLine(None, false, true, [Open]);
            && NamesOf(ScanLine(ScanLine(c, line), brace).stack) == OpenNames(s.blocks) + [a]
            && ReadLine(s, line) == Some(s) && ReadLine(s, brace).Some?
            && OpenNames(ReadLine(s, brace).value.blocks) == OpenNames(s.blocks)
  {
    var line := SourceLine(None, true, true, [NamespaceHeader([a])]);
    HeaderShows([a]);
    NameWaits(c, s, line, a);
  }

  /** A name found on a line that leaves the nesting as it is. */
  lemma NameWaits(c: Scanner, s: Nesting, line: SourceLine, a: string)
    requires Agrees(c, s) && s.waiting.None? && Found(line) == [a] && |line.events| == 1
    requires line.events[0] != Open && line.events[0] != Close
    ensures var brace := SourceLine(None, false, true, [Open]);
            && NamesOf(ScanLine(ScanLine(c, line), brace).stack) == OpenNames(s.blocks) + [a]
            && ReadLine(s, brace).Some? && OpenNames(ReadLine(s, brace).value.blocks) == OpenNames(s.blocks)
  {
    CountFirst(line.events, Open);
    CountFirst(line.events, Close);
    ScannedLine(c, s, line);
    SameAssumed(s.blocks);
    assert [] + [a] == [a] && Kept([a], 1) == [a];
    WaitingPushed(ScanLine(c, line), s, [a]);
    assert OpenNames(s.blocks) + [] == OpenNames(s.blocks);
  }

  /** Closing a namespace and opening another block on one line: the closed name stays. */
  lemma ReplacedNameIsKept(c: Scanner, s: Nesting, a: string)
    requires Agrees(c, s) && s.waiting.None? && s.blocks != [] && s.blocks[|s.blocks| - 1] == [a]
    ensures var line := SourceLine(None, false, false, [Close, Open]);
            && NamesOf(ScanLine(c, line).stack) == OpenNames(s.blocks) == OpenNames(s.blocks[..|s.blocks| - 1]) + [a]
            && ReadLine(s, line).Some?
            && OpenNames(ReadLine(s, line).value.blocks) == OpenNames(s.blocks[..|s.blocks| - 1])
  {
    var line, below := SourceLine(None, false, false, [Close, Open]), s.blocks[..|s.blocks| - 1];
    CloseThenOpen(s, line.events);
    BalancedKeepsStack(c, s, line);
    assert s.blocks == below + [[a]];
    OpenNamesSnoc(below, [a]);
    OpenNamesSnoc(below, []);
    assert OpenNames(below) + [] == OpenNames(below);
  }

  lemma BalancedKeepsStack(c: Scanner, s: Nesting, line: SourceLine)
    requires Agrees(c, s) && Count(line.events, Open) == Count(line.events, Close)
    ensures NamesOf(ScanLine(c, line).stack) == OpenNames(s.blocks)
  {
    ScannedLine(c, s, line);
    SameStart(s.blocks, Taken(s, line));
    NamesAreOpenNames(s.blocks);
  }

  lemma SameStart(blocks: seq<seq<string>>, names: seq<string>)
    ensures Assumed(blocks, names, |blocks|) == blocks
  {
  }

  lemma CloseThenOpen(s: Nesting, events: seq<Event>)
    requires events == [Close, Open] && s.waiting.None? && s.blocks != []
    ensures Count(events, Open) == Count(events, Close) == 1
    ensures ReadEvents(s, events) == Some(Nesting(s.blocks[..|s.blocks| - 1] + [[]], None))
  {
    assert events[1..] == [Event.Open];
    CountFirst(events, Open);
    CountFirst(events, Close);
    OpenBrace(Nesting(s.blocks[..|s.blocks| - 1], None));
  }

  /** A line of a macro that starts like a declaration is recorded as one. */
  lemma MacroDeclarationIsRecorded(d: Declaration)
    ensures var lines := [SourceLine(Some(d), true, false, [])];
            && Readable(lines) && AllTracked(lines) && TrueDeclarations(lines) == []
            && Discovered(lines) == [Candidate("", d, 1)]
  {
    var line := SourceLine(Some(d), true, false, []);
    OneLine(line);
    QuietLineIsTracked(Nesting([], None), line);
  }

  lemma OneLine(line: SourceLine)
    ensures Scan([]) == Scanner([], [], 0) && Nest([]) == Nesting([], None)
    ensures forall k :: 0 <= k < |[line]| ==> [line][..k] == [] && [line][k] == line
    ensures Discovered([line]) == Recorded([], line, 1)
    ensures TrueDeclarations([line]) == if line.directive then [] else Recorded([], line, 1)
  {
    assert [line][..0] == [];
    assert Discovered([line]) == Discovered([]) + Recorded(NamesOf(Scan([]).stack), line, 1);
    assert TrueDeclarations([line]) == TrueDeclarations([]) + if line.directive then [] else TruePlace([line], 0);
    assert NamesOf([]) == [];
  }
}
