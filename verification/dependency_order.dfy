/** The order in which the binding generator emits classes: a depth-first search over the
    "mentions the name of" relation that tolerates cycles. */
module DependencyOrder {

  type Name = string

  /** A scanned class: its qualified name and the spelled types of its fields and parameters. */
  datatype CppClass = CppClass(name: Name, types: seq<string>)

  // ---- The dependency graph ----

  /** Successors of each name, in visiting order. */
  type Graph = g: map<Name, seq<Name>> | Closed(g) witness map[]

  ghost predicate Closed(g: map<Name, seq<Name>>) {
    forall n, i {:trigger g[n][i]} :: n in g && 0 <= i < |g[n]| ==> g[n][i] in g
  }

  ghost predicate IsPath(g: Graph, p: seq<Name>) {
    |p| > 0 && (forall i :: 0 <= i < |p| ==> p[i] in g) &&
    forall i :: 0 <= i < |p| - 1 ==> p[i + 1] in g[p[i]]
  }

  ghost predicate Reaches(g: Graph, a: Name, b: Name) {
    exists p :: IsPath(g, p) && p[0] == a && p[|p| - 1] == b
  }

  ghost predicate Acyclic(g: Graph) {
    forall n, d :: n in g && d in g[n] ==> !Reaches(g, d, n)
  }

  lemma ReachesSelf(g: Graph, a: Name)
    requires a in g
    ensures Reaches(g, a, a)
  {
    assert IsPath(g, [a]);
  }

  lemma ReachesNext(g: Graph, a: Name, b: Name, c: Name)
    requires Reaches(g, a, b) && b in g && c in g[b]
    ensures Reaches(g, a, c)
  {
    var p :| IsPath(g, p) && p[0] == a && p[|p| - 1] == b;
    var q := p + [c];
    assert c in g by {
      var i :| 0 <= i < |g[b]| && g[b][i] == c;
    }
    assert IsPath(g, q);
  }

  /** A name reaches itself and what its successors reach. */
  lemma ReachesIff(g: Graph, a: Name, b: Name)
    requires a in g
    ensures Reaches(g, a, b) <==> a == b || exists d :: d in g[a] && Reaches(g, d, b)
  {
    if Reaches(g, a, b) && a != b {
      var p :| IsPath(g, p) && p[0] == a && p[|p| - 1] == b;
      assert IsPath(g, p[1..]);
      assert p[1] in g[a] && Reaches(g, p[1], b);
    }
    if a == b {
      ReachesSelf(g, a);
    }
    forall d | d in g[a] && Reaches(g, d, b) ensures Reaches(g, a, b) {
      var p :| IsPath(g, p) && p[0] == d && p[|p| - 1] == b;
      assert IsPath(g, [a] + p);
    }
  }

  // ---- The search as a function ----

  datatype State = State(visiting: set<Name>, visited: set<Name>, result: seq<Name>)

  ghost function Unseen(g: Graph, s: State): set<Name> {
    g.Keys - s.visiting - s.visited
  }

  ghost function Explore(g: Graph, s: State, n: Name): (t: State)
    requires n in g
    ensures t.visiting == s.visiting && s.visited <= t.visited
    decreases |Unseen(g, s)|, 0
  {
    if n in s.visited || n in s.visiting then s
    else
      var entered := s.(visiting := s.visiting + {n});
      UnseenShrinks(g, s, entered, n);
      var left := ExploreAll(g, entered, g[n]);
      State(left.visiting - {n}, left.visited + {n}, left.result + [n])
  }

  ghost function ExploreAll(g: Graph, s: State, names: seq<Name>): (t: State)
    requires forall i :: 0 <= i < |names| ==> names[i] in g
    ensures t.visiting == s.visiting && s.visited <= t.visited
    decreases |Unseen(g, s)|, |names|
  {
    if names == [] then s
    else
      var t := Explore(g, s, names[0]);
      UnseenShrinks(g, s, t, names[0]);
      ExploreAll(g, t, names[1..])
  }

  lemma UnseenShrinks(g: Graph, s: State, t: State, n: Name)
    requires s.visiting <= t.visiting && s.visited <= t.visited
    ensures |Unseen(g, t)| <= |Unseen(g, s)|
    ensures n in Unseen(g, s) && n in t.visiting ==> |Unseen(g, t)| < |Unseen(g, s)|
  {
    SubsetSize(Unseen(g, t), Unseen(g, s));
    if n in Unseen(g, s) && n in t.visiting {
      SubsetSize(Unseen(g, t) + {n}, Unseen(g, s));
    }
  }

  lemma {:induction false} SubsetSize(a: set<Name>, b: set<Name>)
    requires a <= b
    ensures |a| <= |b|
  {
    if a != {} {
      var x :| x in a;
      SubsetSize(a - {x}, b - {x});
    }
  }

  // ---- What the search keeps ----

  ghost predicate NoDuplicates(s: seq<Name>) {
    forall i, j :: 0 <= i < j < |s| ==> s[i] != s[j]
  }

  /** Every dependency of an emitted name was emitted before it or can reach back to it. */
  ghost predicate DependenciesFirst(g: Graph, result: seq<Name>) {
    forall i, d :: 0 <= i < |result| && result[i] in g && d in g[result[i]] ==>
      d in result[..i] || Reaches(g, d, result[i])
  }

  ghost predicate Inv(g: Graph, s: State) {
    && s.visited <= g.Keys && s.visiting !! s.visited
    && (forall n :: n in s.visited <==> n in s.result)
    && NoDuplicates(s.result)
    && DependenciesFirst(g, s.result)
  }

  ghost predicate AllReach(g: Graph, from: set<Name>, n: Name) {
    forall v :: v in from ==> Reaches(g, v, n)
  }

  lemma {:induction false} ExploreKeepsInv(g: Graph, s: State, n: Name)
    requires n in g && Inv(g, s) && AllReach(g, s.visiting, n)
    ensures var t := Explore(g, s, n);
      Inv(g, t) && s.result <= t.result && (n in t.visited || n in s.visiting)
    decreases |Unseen(g, s)|, 0
  {
    if n in s.visited || n in s.visiting {
    } else {
      var entered := s.(visiting := s.visiting + {n});
      UnseenShrinks(g, s, entered, n);
      forall i, v | 0 <= i < |g[n]| && v in entered.visiting ensures Reaches(g, v, g[n][i]) {
        ReachesSelf(g, n);
        ReachesNext(g, v, n, g[n][i]);
      }
      ExploreAllKeepsInv(g, entered, g[n]);
      var left := ExploreAll(g, entered, g[n]);
      ReachesSelf(g, n);
      FinishKeepsInv(g, left, n);
    }
  }

  /** Emitting a name whose dependencies are emitted, or are being visited and so reach it. */
  lemma FinishKeepsInv(g: Graph, s: State, n: Name)
    requires n in g && Inv(g, s) && n in s.visiting && AllReach(g, s.visiting, n)
    requires forall d :: d in g[n] ==> d in s.visited || d in s.visiting
    ensures Inv(g, State(s.visiting - {n}, s.visited + {n}, s.result + [n]))
  {
    AppendKeepsOrder(g, s.result, n);
  }

  lemma {:induction false} ExploreAllKeepsInv(g: Graph, s: State, names: seq<Name>)
    requires Inv(g, s)
    requires forall i :: 0 <= i < |names| ==> names[i] in g && AllReach(g, s.visiting, names[i])
    ensures var t := ExploreAll(g, s, names);
      Inv(g, t) && s.result <= t.result &&
      forall n :: n in names ==> n in t.visited || n in s.visiting
    decreases |Unseen(g, s)|, |names|
  {
    if names != [] {
      var t := Explore(g, s, names[0]);
      UnseenShrinks(g, s, t, names[0]);
      ExploreKeepsInv(g, s, names[0]);
      ExploreAllKeepsInv(g, t, names[1..]);
    }
  }

  lemma AppendKeepsOrder(g: Graph, result: seq<Name>, n: Name)
    requires DependenciesFirst(g, result) && n in g
    requires forall d :: d in g[n] ==> d in result || Reaches(g, d, n)
    ensures DependenciesFirst(g, result + [n])
  {
    var r := result + [n];
    forall i, d | 0 <= i < |r| && r[i] in g && d in g[r[i]]
      ensures d in r[..i] || Reaches(g, d, r[i])
    {
      if i < |result| {
        assert r[..i] == result[..i];
      } else {
        assert r[..i] == result;
      }
    }
  }

  // ---- A list that already respects its dependencies is left alone ----

  lemma {:induction false} ExploreAllSeen(g: Graph, s: State, names: seq<Name>)
    requires forall i :: 0 <= i < |names| ==> names[i] in g && names[i] in s.visited
    ensures ExploreAll(g, s, names) == s
    decreases |names|
  {
    if names != [] {
      ExploreAllSeen(g, s, names[1..]);
    }
  }

  ghost predicate Ready(g: Graph, seen: set<Name>, names: seq<Name>) {
    forall i :: 0 <= i < |names| ==>
      names[i] in g && names[i] !in seen && names[i] !in names[..i] &&
      forall d :: d in g[names[i]] ==> d in seen || d in names[..i]
  }

  lemma ReadyRest(g: Graph, seen: set<Name>, names: seq<Name>)
    requires Ready(g, seen, names) && names != []
    ensures Ready(g, seen + {names[0]}, names[1..])
  {
    var rest := names[1..];
    forall i | 0 <= i < |rest|
      ensures rest[i] in g && rest[i] !in seen + {names[0]} && rest[i] !in rest[..i] &&
              forall d :: d in g[rest[i]] ==> d in seen + {names[0]} || d in rest[..i]
    {
      assert rest[i] == names[i + 1];
      assert names[..i + 1] == [names[0]] + rest[..i];
    }
  }

  lemma {:induction false} ExploreAllReady(g: Graph, s: State, names: seq<Name>)
    requires s.visiting == {} && Ready(g, s.visited, names)
    ensures ExploreAll(g, s, names).result == s.result + names
    decreases |names|
  {
    if names != [] {
      var n, rest := names[0], names[1..];
      var entered := s.(visiting := s.visiting + {n});
      ExploreAllSeen(g, entered, g[n]) by {
        forall i | 0 <= i < |g[n]| ensures g[n][i] in s.visited {
          assert g[n][i] in g[names[0]];
        }
      }
      var t := Explore(g, s, n);
      assert t.visited == s.visited + {n} && t.result == s.result + [n];
      ReadyRest(g, s.visited, names);
      ExploreAllReady(g, t, rest);
      assert s.result + [n] + rest == s.result + names;
    }
  }

  // ---- The graph of a list of classes ----

  function Names(classes: seq<CppClass>): (r: seq<Name>)
    ensures |r| == |classes| && forall i :: 0 <= i < |r| ==> r[i] == classes[i].name
  {
    seq(|classes|, i requires 0 <= i < |classes| => classes[i].name)
  }

  function Join(types: seq<string>): string {
    if types == [] then "" else if |types| == 1 then types[0] else types[0] + " " + Join(types[1..])
  }

  predicate OccursAt(word: string, text: string, i: nat) {
    i + |word| <= |text| && text[i..i + |word|] == word
  }

  predicate Occurs(word: string, text: string) {
    exists i :: 0 <= i <= |text| && OccursAt(word, text, i)
  }

  /** Class c mentions the known class d, which is also listed and is not c. */
  predicate Mentions(classes: seq<CppClass>, known: set<Name>, c: CppClass, d: Name) {
    d in known && Occurs(d, Join(c.types)) && d != c.name && d in Names(classes)
  }

  /** The word stands somewhere in the text. */
  ghost predicate Contains(text: string, word: string) {
    exists before: string, after: string :: text == before + (word + after)
  }

  lemma OccursIff(word: string, text: string)
    ensures Occurs(word, text) <==> Contains(text, word)
  {
    if Occurs(word, text) {
      var i :| 0 <= i <= |text| && OccursAt(word, text, i);
      assert text == text[..i] + (text[i..i + |word|] + text[i + |word|..]);
    }
    if Contains(text, word) {
      var before: string, after: string :| text == before + (word + after);
      assert OccursAt(word, text, |before|);
    }
  }

  /** A word without blanks cannot reach across the blank between two texts. */
  lemma ContainsOne(word: string, x: string, y: string)
    requires word != "" && ' ' !in word
    ensures Contains(x + (" " + y), word) <==> Contains(x, word) || Contains(y, word)
  {
    var text := x + (" " + y);
    if Contains(text, word) {
      var before: string, after: string :| text == before + (word + after);
      NotAcross(word, x, y, before, after);
    }
    if Contains(x, word) {
      var before: string, after: string :| x == before + (word + after);
      FourTexts(before, word, after, " " + y);
    } else if Contains(y, word) {
      var before: string, after: string :| y == before + (word + after);
      FourTexts(x, " ", before, word + after);
      assert text == (x + (" " + before)) + (word + after);
    }
  }

  lemma FourTexts(a: string, b: string, c: string, d: string)
    ensures (a + (b + c)) + d == a + (b + (c + d))
  {
  }

  lemma NotAcross(word: string, x: string, y: string, before: string, after: string)
    requires ' ' !in word && word != "" && x + (" " + y) == before + (word + after)
    ensures Contains(x, word) || Contains(y, word)
  {
    var text, n := x + (" " + y), |before| + |word|;
    assert text[|x|] == ' ';
    assert forall i :: |before| <= i < n ==> text[i] == word[i - |before|] && word[i - |before|] in word;
    if n <= |x| {
      assert x == text[..|x|] == before + (word + after[..|x| - n]);
    } else {
      assert |before| > |x|;
      assert y == text[|x| + 1..] == before[|x| + 1..] + (word + after);
    }
  }

  lemma {:induction false} ContainedInJoin(word: string, types: seq<string>)
    requires word != "" && ' ' !in word
    ensures Contains(Join(types), word) <==> exists k :: 0 <= k < |types| && Contains(types[k], word)
  {
    if |types| > 1 {
      ContainedInJoin(word, types[1..]);
      ContainsOne(word, types[0], Join(types[1..]));
      assert Join(types) == types[0] + (" " + Join(types[1..]));
      assert forall k :: 0 < k < |types| ==> types[k] == types[1..][k - 1];
      assert forall k :: 0 <= k < |types| - 1 ==> types[1..][k] == types[k + 1];
    }
  }

  /** A class depends on another exactly if that is known and listed and its name, if that has no blank,
      stands in one of the class's types, whatever is around it. */
  lemma MentionsIff(classes: seq<CppClass>, known: set<Name>, c: CppClass, d: Name)
    requires d != "" && ' ' !in d
    ensures Mentions(classes, known, c, d) <==>
            && d in known && d != c.name && (exists i :: 0 <= i < |classes| && classes[i].name == d)
            && exists k :: 0 <= k < |c.types| && Contains(c.types[k], d)
  {
    OccursIff(d, Join(c.types));
    ContainedInJoin(d, c.types);
    assert forall i :: 0 <= i < |classes| ==> Names(classes)[i] == classes[i].name;
  }

  /** The class a name stands for: a later one replaces an earlier one of the same name. */
  function ByName(classes: seq<CppClass>, n: Name): (c: CppClass)
    requires n in Names(classes)
    ensures c.name == n && c in classes
  {
    var k := |classes| - 1;
    if classes[k].name == n then classes[k]
    else
      assert Names(classes) == Names(classes[..k]) + [classes[k].name];
      ByName(classes[..k], n)
  }

  /** The names mentioned by c, sorted by the position at which they are listed last. */
  function SortedMentions(classes: seq<CppClass>, known: set<Name>, c: CppClass, k: nat): (r: seq<Name>)
    requires k <= |classes|
  {
    if k == 0 then []
    else
      var n := classes[k - 1].name;
      SortedMentions(classes, known, c, k - 1) +
      if LastOfItsName(classes, k - 1) && Mentions(classes, known, c, n) then [n] else []
  }

  predicate LastOfItsName(classes: seq<CppClass>, i: nat)
    requires i < |classes|
  {
    forall j :: i < j < |classes| ==> classes[j].name != classes[i].name
  }

  lemma HasLast(classes: seq<CppClass>, n: Name) returns (i: nat)
    requires n in Names(classes)
    ensures i < |classes| && classes[i].name == n && LastOfItsName(classes, i)
  {
    i := |classes| - 1;
    while classes[i].name != n
      decreases i
      invariant 0 <= i < |classes|
      invariant forall j :: i < j < |classes| ==> classes[j].name != n
    {
      var j :| 0 <= j < |classes| && Names(classes)[j] == n;
      assert j < i;
      i := i - 1;
    }
  }

  lemma {:induction false} SortedMentionsAre(classes: seq<CppClass>, known: set<Name>, c: CppClass, k: nat, n: Name)
    requires k <= |classes|
    ensures n in SortedMentions(classes, known, c, k) <==>
            (Mentions(classes, known, c, n) &&
             exists i :: 0 <= i < k && LastOfItsName(classes, i) && classes[i].name == n)
  {
    if k > 0 {
      SortedMentionsAre(classes, known, c, k - 1, n);
    }
  }

  lemma MentionsAreSorted(classes: seq<CppClass>, known: set<Name>, c: CppClass, n: Name)
    ensures n in SortedMentions(classes, known, c, |classes|) <==> Mentions(classes, known, c, n)
  {
    SortedMentionsAre(classes, known, c, |classes|, n);
    if Mentions(classes, known, c, n) {
      var i := HasLast(classes, n);
    }
  }

  /** They are in the order of the positions at which their names are listed last. */
  lemma {:induction false} MentionsAscend(classes: seq<CppClass>, known: set<Name>, c: CppClass, k: nat)
      returns (at: seq<nat>)
    requires k <= |classes|
    ensures var r := SortedMentions(classes, known, c, k);
      && |at| == |r| && (forall i :: 0 <= i < |at| ==> at[i] < k)
      && (forall i :: 0 <= i < |at| ==> LastOfItsName(classes, at[i]) && classes[at[i]].name == r[i])
      && (forall i, j :: 0 <= i < j < |at| ==> at[i] < at[j])
  {
    at := [];
    if k > 0 {
      at := MentionsAscend(classes, known, c, k - 1);
      if |SortedMentions(classes, known, c, k)| > |at| {
        at := at + [k - 1];
      }
    }
  }

  ghost function NamedClasses(classes: seq<CppClass>): map<Name, CppClass> {
    map n | n in Names(classes) :: ByName(classes, n)
  }

  ghost function AllMentions(classes: seq<CppClass>, known: set<Name>, named: map<Name, CppClass>)
    : map<Name, seq<Name>>
  {
    map n | n in named :: SortedMentions(classes, known, named[n], |classes|)
  }

  ghost function GraphOf(classes: seq<CppClass>, known: set<Name>): (g: Graph)
    ensures forall n :: n in g <==> n in Names(classes)
    ensures forall n, d :: n in g ==> (d in g[n] <==> Mentions(classes, known, ByName(classes, n), d))
  {
    var g := AllMentions(classes, known, NamedClasses(classes));
    assert Closed(g) by {
      forall n, i | n in g && 0 <= i < |g[n]| ensures g[n][i] in g {
        assert g[n][i] in g[n];
        MentionsAreSorted(classes, known, ByName(classes, n), g[n][i]);
      }
    }
    assert forall n, d :: n in g ==> (d in g[n] <==> Mentions(classes, known, ByName(classes, n), d)) by {
      forall n, d | n in g ensures d in g[n] <==> Mentions(classes, known, ByName(classes, n), d) {
        MentionsAreSorted(classes, known, ByName(classes, n), d);
      }
    }
    g
  }

  const START := State({}, {}, [])

  ghost function OrderedNames(classes: seq<CppClass>, known: set<Name>): seq<Name> {
    ExploreAll(GraphOf(classes, known), START, Names(classes)).result
  }

  /** The emitted names are the listed names, each once; each mentioned class comes before the
      class that mentions it unless it reaches back to it. */
  lemma OrderIsDependencyFirst(classes: seq<CppClass>, known: set<Name>)
    ensures var r, g := OrderedNames(classes, known), GraphOf(classes, known);
      && NoDuplicates(r)
      && (forall n :: n in r <==> n in Names(classes))
      && DependenciesFirst(g, r)
      && (Acyclic(g) ==> forall i, d :: 0 <= i < |r| && d in g[r[i]] ==> d in r[..i])
  {
    var g, names := GraphOf(classes, known), Names(classes);
    assert Inv(g, START);
    ExploreAllKeepsInv(g, START, names);
    var t := ExploreAll(g, START, names);
    forall n ensures n in t.result <==> n in names {
      if n in t.result {
        assert n in t.visited;
      }
    }
  }

  predicate Distinct(classes: seq<CppClass>) {
    forall i, j :: 0 <= i < j < |classes| ==> classes[i].name != classes[j].name
  }

  /** Distinct classes, each listed after the ones it mentions, keep their order. */
  lemma OrderIsStable(classes: seq<CppClass>, known: set<Name>)
    requires forall i, j :: 0 <= i < j < |classes| ==> classes[i].name != classes[j].name
    requires forall i, d :: 0 <= i < |classes| && Mentions(classes, known, classes[i], d) ==>
               d in Names(classes)[..i]
    ensures OrderedNames(classes, known) == Names(classes)
  {
    var g, names := GraphOf(classes, known), Names(classes);
    forall i | 0 <= i < |names|
      ensures names[i] in g && names[i] !in names[..i] && forall d :: d in g[names[i]] ==> d in names[..i]
    {
      InOrderAt(classes, known, i);
    }
    assert Ready(g, START.visited, names);
    ExploreAllReady(g, START, names);
  }

  lemma InOrderAt(classes: seq<CppClass>, known: set<Name>, i: nat)
    requires Distinct(classes) && i < |classes|
    requires forall d :: Mentions(classes, known, classes[i], d) ==> d in Names(classes)[..i]
    ensures var g, names := GraphOf(classes, known), Names(classes);
            names[i] in g && names[i] !in names[..i] && forall d :: d in g[names[i]] ==> d in names[..i]
  {
    assert ByName(classes, Names(classes)[i]) == classes[i];
  }

  // ---- The program ----

  lemma ExploreNext(g: Graph, s: State, names: seq<Name>, i: nat)
    requires i < |names| && forall j :: 0 <= j < |names| ==> names[j] in g
    ensures ExploreAll(g, s, names[i..]) == ExploreAll(g, Explore(g, s, names[i]), names[i + 1..])
  {
    assert names[i..][0] == names[i] && names[i..][1..] == names[i + 1..];
  }

  lemma NamesSnoc(classes: seq<CppClass>, c: CppClass)
    ensures Names(classes + [c]) == Names(classes) + [c.name]
  {
  }

  /** The closure state of the search: the two sets and the emitted classes. */
  class Search {
    const dependencies: Graph
    const byName: map<Name, CppClass>
    var visiting: set<Name>
    var visited: set<Name>
    var result: seq<CppClass>

    ghost predicate Valid()
      reads this
    {
      && (forall n :: n in dependencies <==> n in byName)
      && (forall n :: n in byName ==> byName[n].name == n)
      && (forall c :: c in result ==> c.name in byName && byName[c.name] == c)
    }

    ghost function Value(): State
      reads this
    {
      State(visiting, visited, Names(result))
    }

    constructor (dependencies: Graph, byName: map<Name, CppClass>)
      requires forall n :: n in dependencies <==> n in byName
      requires forall n :: n in byName ==> byName[n].name == n
      ensures Valid() && Value() == START
      ensures this.dependencies == dependencies && this.byName == byName
    {
      this.dependencies, this.byName := dependencies, byName;
      visiting, visited, result := {}, {}, [];
    }

    method Visit(name: Name)
      requires Valid() && name in dependencies
      modifies this
      ensures Valid() && Value() == Explore(dependencies, old(Value()), name)
      decreases |Unseen(dependencies, Value())|, 0
    {
      if name in visited {
        return;
      }
      if name in visiting {
        return;
      }
      visiting := visiting + {name};
      UnseenShrinks(dependencies, old(Value()), Value(), name);
      VisitAll(dependencies[name]);
      Emit(name);
    }

    /** The loop over the dependencies of a class. */
    method VisitAll(names: seq<Name>)
      requires Valid() && forall i :: 0 <= i < |names| ==> names[i] in dependencies
      modifies this
      ensures Valid() && Value() == ExploreAll(dependencies, old(Value()), names)
      decreases |Unseen(dependencies, Value())|, 1
    {
      ghost var entered := Value();
      for i := 0 to |names|
        invariant Valid() && visiting == entered.visiting && entered.visited <= visited
        invariant ExploreAll(dependencies, Value(), names[i..]) == ExploreAll(dependencies, entered, names)
      {
        UnseenShrinks(dependencies, entered, Value(), names[i]);
        ExploreNext(dependencies, Value(), names, i);
        Visit(names[i]);
      }
      assert names[|names|..] == [];
    }

    /** The class is finished and goes to the result. */
    method Emit(name: Name)
      requires Valid() && name in dependencies
      modifies this
      ensures Valid()
      ensures Value() == State(old(visiting) - {name}, old(visited) + {name}, old(Value()).result + [name])
    {
      NamesSnoc(result, byName[name]);
      visiting := visiting - {name};
      visited := visited + {name};
      result := result + [byName[name]];
    }
  }

  /** The dictionaries the search works on. */
  method BuildGraph(classes: seq<CppClass>, known: set<Name>)
    returns (dependencies: map<Name, seq<Name>>, byName: map<Name, CppClass>)
    ensures dependencies == GraphOf(classes, known)
    ensures byName == NamedClasses(classes)
  {
    byName, dependencies := map[], map[];
    for i := 0 to |classes|
      invariant byName == NamedClasses(classes[..i])
      invariant dependencies == AllMentions(classes, known, byName)
    {
      var item := classes[i];
      NamedClassesSnoc(classes[..i], item);
      AllMentionsUpdate(classes, known, byName, item);
      assert classes[..i + 1] == classes[..i] + [item];
      byName := byName[item.name := item];
      dependencies := dependencies[item.name := SortedMentions(classes, known, item, |classes|)];
    }
    assert classes[..|classes|] == classes;
  }

  lemma AllMentionsUpdate(classes: seq<CppClass>, known: set<Name>, named: map<Name, CppClass>, c: CppClass)
    ensures AllMentions(classes, known, named[c.name := c]) ==
            AllMentions(classes, known, named)[c.name := SortedMentions(classes, known, c, |classes|)]
  {
  }

  lemma NamedClassesSnoc(classes: seq<CppClass>, c: CppClass)
    ensures NamedClasses(classes + [c]) == NamedClasses(classes)[c.name := c]
  {
    NamesSnoc(classes, c);
    forall n | n in Names(classes) && n != c.name
      ensures ByName(classes + [c], n) == ByName(classes, n)
    {
      assert (classes + [c])[..|classes|] == classes;
    }
  }

  method Order(classes: seq<CppClass>, known: set<Name>) returns (result: seq<CppClass>)
    ensures Names(result) == OrderedNames(classes, known)
    ensures forall c :: c in result ==> c.name in Names(classes) && c == ByName(classes, c.name)
  {
    var dependencies, byName := BuildGraph(classes, known);
    var search := new Search(dependencies, byName);
    ghost var names := Names(classes);
    for i := 0 to |classes|
      invariant search.Valid() && search.visiting == {}
      invariant ExploreAll(dependencies, search.Value(), names[i..]) == ExploreAll(dependencies, START, names)
    {
      ExploreNext(dependencies, search.Value(), names, i);
      search.Visit(classes[i].name);
    }
    assert names[|classes|..] == [];
    result := search.result;
  }

  /** For distinct class names the emitted classes are a permutation of the listed ones. */
  lemma OrderIsPermutation(classes: seq<CppClass>, known: set<Name>, result: seq<CppClass>)
    requires forall i, j :: 0 <= i < j < |classes| ==> classes[i].name != classes[j].name
    requires Names(result) == OrderedNames(classes, known)
    requires forall c :: c in result ==> c.name in Names(classes) && c == ByName(classes, c.name)
    ensures multiset(result) == multiset(classes)
  {
    OrderIsDependencyFirst(classes, known);
    forall c ensures c in result <==> c in classes {
      if c in classes {
        var i :| 0 <= i < |classes| && classes[i] == c;
        assert Names(classes)[i] in Names(result);
        var j :| 0 <= j < |result| && Names(result)[j] == c.name;
        assert result[j] == ByName(classes, c.name);
      }
    }
    SamePermutation(result, classes);
  }

  lemma SamePermutation(a: seq<CppClass>, b: seq<CppClass>)
    requires NoDuplicates(Names(a)) && NoDuplicates(Names(b))
    requires forall c :: c in a <==> c in b
    ensures multiset(a) == multiset(b)
  {
    forall c: CppClass ensures multiset(a)[c] == multiset(b)[c] {
      Occurrences(a, c);
      Occurrences(b, c);
    }
  }

  lemma {:induction false} Occurrences(a: seq<CppClass>, c: CppClass)
    requires NoDuplicates(Names(a))
    ensures multiset(a)[c] == if c in a then 1 else 0
  {
    if a != [] {
      var k := |a| - 1;
      assert Names(a[..k]) == Names(a)[..k];
      Occurrences(a[..k], c);
      assert a == a[..k] + [a[k]];
      forall i | 0 <= i < k ensures a[i] != a[k] {
        assert Names(a)[i] != Names(a)[k];
      }
    }
  }
}
