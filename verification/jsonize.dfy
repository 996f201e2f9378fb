/** Conversion between nested containers and JSON-like values.  A type is built from scalars,
    vectors, lists, sets and string-keyed maps; scalars convert to themselves. */
module Jsonize {
  import opened Wrappers

  datatype Kind = Integer | Float | Flag | Text

  datatype Scalar = OfInteger(i: int) | OfFloat(x: real) | OfFlag(b: bool) | OfText(s: string) {
    function Kind(): Kind {
      match this
      case OfInteger(_) => Integer
      case OfFloat(_) => Float
      case OfFlag(_) => Flag
      case OfText(_) => Text
    }
  }

  /** The type a converter is instantiated at. */
  datatype Type = Single(kind: Kind) | Vector(element: Type) | List(element: Type) | Set(element: Type)
                | Map(element: Type)

  /** A C++ value: Items is the content of a vector or of a list. */
  datatype Value = Plain(scalar: Scalar) | Items(items: seq<Value>) | Members(members: set<Value>)
                 | Entries(entries: map<string, Value>)

  datatype Any = Null | Leaf(scalar: Scalar) | Array(items: seq<Any>) | Object(fields: map<string, Any>)

  ghost predicate HasType(t: Type, v: Value) {
    match t
    case Single(k) => v.Plain? && v.scalar.Kind() == k
    case Vector(e) => v.Items? && forall i :: 0 <= i < |v.items| ==> HasType(e, v.items[i])
    case List(e) => v.Items? && forall i :: 0 <= i < |v.items| ==> HasType(e, v.items[i])
    case Set(e) => v.Members? && forall x :: x in v.members ==> HasType(e, x)
    case Map(e) => v.Entries? && forall k :: k in v.entries ==> HasType(e, v.entries[k])
  }

  /** What a declaration without an initial value gives. */
  function Fresh(t: Type): (v: Value)
    ensures !t.Single? ==> HasType(t, v)
  {
    match t
    case Single(_) => Plain(OfInteger(0))
    case Vector(_) => Items([])
    case List(_) => Items([])
    case Set(_) => Members({})
    case Map(_) => Entries(map[])
  }

  /** The shape a target of this type has. */
  predicate Fits(t: Type, v: Value) {
    match t
    case Single(_) => true
    case Vector(_) => v.Items?
    case List(_) => v.Items?
    case Set(_) => v.Members?
    case Map(_) => v.Entries?
  }

  // ---- What reading into a target gives ----

  /** The value after reading a into a target, or None when a cast fails. */
  function Read(t: Type, a: Any, target: Value): (r: Option<Value>)
    requires Fits(t, target)
    ensures r.Some? ==> Fits(t, r.value)
    decreases t, 0
  {
    match t
    case Single(k) => if a.Leaf? && a.scalar.Kind() == k then Some(Plain(a.scalar)) else None
    case Vector(e) =>
      if a.Null? then Some(target)
      else if ReadableItems(e, a) then Some(Items(target.items + ReadItems(e, a.items))) else None
    case List(e) =>
      if a.Null? then Some(target)
      else if ReadableItems(e, a) then Some(Items(target.items + ReadItems(e, a.items))) else None
    case Set(e) =>
      if a.Null? then Some(target)
      else if ReadableItems(e, a) then
        Some(Members(target.members + Elements(ReadItems(e, a.items))))
      else None
    case Map(e) =>
      if a.Null? then Some(target)
      else if a.Object? && ReadableFields(e, a.fields) then
        Some(Entries(target.entries + ReadFields(e, a.fields)))
      else None
  }

  /** Reading into a fresh value, as each converter does with the elements. */
  function Convert(t: Type, a: Any): (r: Option<Value>)
    decreases t, 1
  {
    Read(t, a, Fresh(t))
  }

  predicate ReadableItems(e: Type, a: Any)
    decreases e, 2
  {
    a.Array? && forall i :: 0 <= i < |a.items| ==> Convert(e, a.items[i]).Some?
  }

  function ReadItems(e: Type, items: seq<Any>): (r: seq<Value>)
    requires ReadableItems(e, Array(items))
    decreases e, 3
  {
    seq(|items|, i requires 0 <= i < |items| => Convert(e, items[i]).value)
  }

  function Elements(s: seq<Value>): set<Value> {
    set x | x in s
  }

  predicate ReadableFields(e: Type, fields: map<string, Any>)
    decreases e, 2
  {
    forall k :: k in fields ==> Convert(e, fields[k]).Some?
  }

  function ReadFields(e: Type, fields: map<string, Any>): (r: map<string, Value>)
    requires ReadableFields(e, fields)
    decreases e, 3
  {
    map k | k in fields :: Convert(e, fields[k]).value
  }

  // ---- What can be read, and what null does ----

  /** Null leaves every container as it is. */
  lemma NullChangesNothing(t: Type, target: Value)
    requires !t.Single? && Fits(t, target)
    ensures Read(t, Null, target) == Some(target)
  {
  }

  /** Scalars of the right kind where scalars are read, and null, arrays or objects of what can be read
      where containers are. */
  predicate Conforms(t: Type, a: Any)
    decreases t
  {
    match t
    case Single(k) =>
      (match a
       case Leaf(OfInteger(_)) => k == Integer
       case Leaf(OfFloat(_)) => k == Float
       case Leaf(OfFlag(_)) => k == Flag
       case Leaf(OfText(_)) => k == Text
       case _ => false)
    case Map(e) => a.Null? || (a.Object? && forall k :: k in a.fields ==> Conforms(e, a.fields[k]))
    case _ => a.Null? || (a.Array? && forall i :: 0 <= i < |a.items| ==> Conforms(t.element, a.items[i]))
  }

  /** Reading succeeds exactly on these values, whatever the target holds. */
  lemma {:induction false} ReadSucceedsIff(t: Type, a: Any, target: Value)
    requires Fits(t, target)
    ensures Read(t, a, target).Some? <==> Conforms(t, a)
    decreases t
  {
    if a.Array? && !t.Single? && !t.Map? {
      forall i | 0 <= i < |a.items| ensures Convert(t.element, a.items[i]).Some? <==> Conforms(t.element, a.items[i]) {
        ReadSucceedsIff(t.element, a.items[i], Fresh(t.element));
      }
    } else if a.Object? && t.Map? {
      forall k | k in a.fields ensures Convert(t.element, a.fields[k]).Some? <==> Conforms(t.element, a.fields[k]) {
        ReadSucceedsIff(t.element, a.fields[k], Fresh(t.element));
      }
    }
  }

  // ---- Which JSON value stands for a value ----

  /** Whether a is a JSON form of v.  The members of a set may come in any order, each once. */
  ghost predicate Encodes(v: Value, a: Any)
    decreases v, 1
  {
    match v
    case Plain(x) => a == Leaf(x)
    case Items(s) => a.Array? && |a.items| == |s| && forall i :: 0 <= i < |s| ==> Encodes(s[i], a.items[i])
    case Members(s) =>
      a.Array? && exists order :: Enumerates(order, s) && EncodesEach(v, order, a.items)
    case Entries(m) => a.Object? && a.fields.Keys == m.Keys && forall k :: k in m ==> Encodes(m[k], a.fields[k])
  }

  ghost predicate EncodesEach(v: Value, order: seq<Value>, items: seq<Any>)
    requires v.Members?
    decreases v, 0
  {
    |order| == |items| && forall i :: 0 <= i < |order| ==> order[i] in v.members && Encodes(order[i], items[i])
  }

  predicate Enumerates(order: seq<Value>, s: set<Value>) {
    Elements(order) == s && |order| == |s|
  }

  // ---- The round trip ----

  /** Sequences append, sets unite, and maps are overridden key by key. */
  function Merge(target: Value, v: Value): Value {
    match v
    case Plain(_) => v
    case Items(s) => if target.Items? then Items(target.items + s) else v
    case Members(s) => if target.Members? then Members(target.members + s) else v
    case Entries(m) => if target.Entries? then Entries(target.entries + m) else v
  }

  /** Reading a JSON form of v merges v into the target. */
  lemma {:induction false} ReadMerges(t: Type, v: Value, a: Any, target: Value)
    requires HasType(t, v) && Encodes(v, a) && Fits(t, target)
    ensures Read(t, a, target) == Some(Merge(target, v))
    decreases t, 0
  {
    match t
    case Single(_) =>
    case Vector(e) => ItemsAreRead(e, v, a);
    case List(e) => ItemsAreRead(e, v, a);
    case Set(e) => MembersAreRead(e, v, a);
    case Map(e) => FieldsAreRead(e, v, a);
  }

  /** Reading a JSON form of v into an empty target gives v back. */
  lemma {:induction false} RoundTrip(t: Type, v: Value, a: Any)
    requires HasType(t, v) && Encodes(v, a)
    ensures Convert(t, a) == Some(v)
    decreases t, 1
  {
    ReadMerges(t, v, a, Fresh(t));
    MergeIntoNothing(t, v);
  }

  lemma MergeIntoNothing(t: Type, v: Value)
    requires HasType(t, v)
    ensures Merge(Fresh(t), v) == v
  {
    match v
    case Plain(_) =>
    case Items(s) => assert [] + s == s;
    case Members(s) => assert {} + s == s;
    case Entries(m) => assert map[] + m == m;
  }

  lemma {:induction false} ItemsAreRead(e: Type, v: Value, a: Any)
    requires HasType(Vector(e), v) && Encodes(v, a)
    ensures ReadableItems(e, a) && ReadItems(e, a.items) == v.items
    decreases e, 3
  {
    forall i | 0 <= i < |a.items| ensures Convert(e, a.items[i]) == Some(v.items[i]) {
      RoundTrip(e, v.items[i], a.items[i]);
    }
  }

  lemma {:induction false} MembersAreRead(e: Type, v: Value, a: Any)
    requires HasType(Set(e), v) && Encodes(v, a)
    ensures ReadableItems(e, a) && Enumerates(ReadItems(e, a.items), v.members)
    ensures forall i :: 0 <= i < |a.items| ==> Encodes(ReadItems(e, a.items)[i], a.items[i])
    decreases e, 4
  {
    var order :| Enumerates(order, v.members) && EncodesEach(v, order, a.items);
    MembersInOrder(e, v, order, a);
    ItemsAreRead(e, Items(order), a);
  }

  lemma MembersInOrder(e: Type, v: Value, order: seq<Value>, a: Any)
    requires HasType(Set(e), v) && a.Array? && EncodesEach(v, order, a.items)
    ensures HasType(Vector(e), Items(order)) && Encodes(Items(order), a)
  {
  }

  lemma {:induction false} FieldsAreRead(e: Type, v: Value, a: Any)
    requires HasType(Map(e), v) && Encodes(v, a)
    ensures ReadableFields(e, a.fields) && ReadFields(e, a.fields) == v.entries
    decreases e, 3
  {
    forall k | k in v.entries ensures Convert(e, a.fields[k]) == Some(v.entries[k]) {
      RoundTrip(e, v.entries[k], a.fields[k]);
    }
  }

  // ---- Which JSON values survive being read and written ----

  /** No container is null and no set lists a member twice. */
  ghost predicate Canonical(t: Type, a: Any)
    decreases t, 0
  {
    match t
    case Single(_) => true
    case Vector(e) => a.Array? && forall i :: 0 <= i < |a.items| ==> Canonical(e, a.items[i])
    case List(e) => a.Array? && forall i :: 0 <= i < |a.items| ==> Canonical(e, a.items[i])
    case Set(e) =>
      && a.Array? && (forall i :: 0 <= i < |a.items| ==> Canonical(e, a.items[i]))
      && (ReadableItems(e, a) ==> Distinct(ReadItems(e, a.items)))
    case Map(e) => a.Object? && forall k :: k in a.fields ==> Canonical(e, a.fields[k])
  }

  /** A JSON value that can be read is a form of the value read exactly if it is canonical. */
  lemma {:induction false} EncodesWhatIsReadIffCanonical(t: Type, a: Any)
    requires Convert(t, a).Some?
    ensures Encodes(Convert(t, a).value, a) <==> Canonical(t, a)
    decreases t, 0
  {
    ConvertGives(t, a);
    match t
    case Single(_) =>
    case Vector(e) => ItemsIffCanonical(e, a);
    case List(e) => ItemsIffCanonical(e, a);
    case Set(e) => MembersIffCanonical(e, a);
    case Map(e) => FieldsIffCanonical(e, a);
  }

  /** Reading into a fresh container gives the content read; a null leaves it empty. */
  lemma ConvertGives(t: Type, a: Any)
    requires Convert(t, a).Some?
    ensures t.Single? ==> a.Leaf? && Convert(t, a) == Some(Plain(a.scalar))
    ensures !t.Single? && !a.Array? && !a.Object? ==> a.Null? && Convert(t, a) == Some(Fresh(t))
    ensures t.Vector? || t.List? ==> !a.Object?
    ensures (t.Vector? || t.List?) && a.Array? ==>
              ReadableItems(t.element, a) && Convert(t, a) == Some(Items(ReadItems(t.element, a.items)))
    ensures t.Set? ==> !a.Object?
    ensures t.Set? && a.Array? ==>
              ReadableItems(t.element, a) && Convert(t, a) == Some(Members(Elements(ReadItems(t.element, a.items))))
    ensures t.Map? ==> !a.Array?
    ensures t.Map? && a.Object? ==>
              ReadableFields(t.element, a.fields) && Convert(t, a) == Some(Entries(ReadFields(t.element, a.fields)))
  {
    match t
    case Single(_) =>
    case Vector(e) =>
      assert a.Null? || ReadableItems(e, a);
      assert a.Array? ==> [] + ReadItems(e, a.items) == ReadItems(e, a.items);
    case List(e) =>
      assert a.Null? || ReadableItems(e, a);
      assert a.Array? ==> [] + ReadItems(e, a.items) == ReadItems(e, a.items);
    case Set(e) =>
      assert a.Null? || ReadableItems(e, a);
      assert a.Array? ==> {} + Elements(ReadItems(e, a.items)) == Elements(ReadItems(e, a.items));
    case Map(e) => assert a.Object? ==> map[] + ReadFields(e, a.fields) == ReadFields(e, a.fields);
  }

  lemma {:induction false} FieldsIffCanonical(e: Type, a: Any)
    requires a.Object? ==> ReadableFields(e, a.fields)
    ensures a.Object? ==> (Encodes(Entries(ReadFields(e, a.fields)), a) <==> Canonical(Map(e), a))
    decreases e, 3
  {
    if a.Object? {
      forall k | k in a.fields
        ensures Encodes(Convert(e, a.fields[k]).value, a.fields[k]) <==> Canonical(e, a.fields[k])
      {
        EncodesWhatIsReadIffCanonical(e, a.fields[k]);
      }
    }
  }

  lemma {:induction false} ItemsIffCanonical(e: Type, a: Any)
    requires a.Array? ==> ReadableItems(e, a)
    ensures a.Array? ==> (Encodes(Items(ReadItems(e, a.items)), a) <==> Canonical(Vector(e), a))
    decreases e, 3
  {
    if a.Array? {
      forall i | 0 <= i < |a.items|
        ensures Encodes(Convert(e, a.items[i]).value, a.items[i]) <==> Canonical(e, a.items[i])
      {
        EncodesWhatIsReadIffCanonical(e, a.items[i]);
      }
    }
  }

  lemma {:induction false} MembersIffCanonical(e: Type, a: Any)
    requires a.Array? ==> ReadableItems(e, a)
    ensures a.Array? ==> (Encodes(Members(Elements(ReadItems(e, a.items))), a) <==> Canonical(Set(e), a))
    decreases e, 3
  {
    if a.Array? {
      var s := ReadItems(e, a.items);
      var v := Members(Elements(s));
      forall i | 0 <= i < |a.items| ensures Encodes(s[i], a.items[i]) <==> Canonical(e, a.items[i]) {
        EncodesWhatIsReadIffCanonical(e, a.items[i]);
      }
      SizeIffDistinct(s);
      if Encodes(v, a) {
        ReadIsTyped(Set(e), a, Members({}));
        MembersAreRead(e, v, a);
      }
      if Canonical(Set(e), a) {
        EachMemberEncoded(e, a.items);
      }
    }
  }

  lemma EachMemberEncoded(e: Type, items: seq<Any>)
    requires ReadableItems(e, Array(items)) && |Elements(ReadItems(e, items))| == |items|
    requires forall i :: 0 <= i < |items| ==> Encodes(ReadItems(e, items)[i], items[i])
    ensures Encodes(Members(Elements(ReadItems(e, items))), Array(items))
  {
    var s := ReadItems(e, items);
    assert Enumerates(s, Elements(s)) && EncodesEach(Members(Elements(s)), s, items);
  }

  predicate Distinct(s: seq<Value>) {
    forall i, j :: 0 <= i < j < |s| ==> s[i] != s[j]
  }

  lemma {:induction false} SizeIffDistinct(s: seq<Value>)
    ensures |Elements(s)| <= |s|
    ensures |Elements(s)| == |s| <==> Distinct(s)
  {
    if s != [] {
      var init, last := s[..|s| - 1], s[|s| - 1];
      SizeIffDistinct(init);
      assert Elements(s) == Elements(init) + {last};
      assert last in init <==> exists i :: 0 <= i < |init| && s[i] == last;
      OneMoreDistinct(s);
    }
  }

  lemma OneMoreDistinct(s: seq<Value>)
    requires s != []
    ensures Distinct(s) <==> Distinct(s[..|s| - 1]) && s[|s| - 1] !in s[..|s| - 1]
  {
    var n := |s| - 1;
    assert forall i :: 0 <= i < n ==> s[..n][i] == s[i];
  }

  /** Reading keeps the type of a container, and gives a scalar its kind. */
  lemma {:induction false} ReadIsTyped(t: Type, a: Any, target: Value)
    requires Fits(t, target) && (t.Single? || HasType(t, target)) && Read(t, a, target).Some?
    ensures HasType(t, Read(t, a, target).value)
    decreases t, 0
  {
    match t
    case Single(_) =>
    case Vector(e) => ItemsAreTyped(e, a);
    case List(e) => ItemsAreTyped(e, a);
    case Set(e) => ItemsAreTyped(e, a);
    case Map(e) =>
      if a.Object? {
        forall k | k in a.fields ensures HasType(e, Convert(e, a.fields[k]).value) {
          assert Convert(e, a.fields[k]).Some?;
          ReadIsTyped(e, a.fields[k], Fresh(e));
        }
      }
  }

  lemma {:induction false} ItemsAreTyped(e: Type, a: Any)
    requires a.Array? ==> ReadableItems(e, a)
    ensures a.Array? ==> forall i :: 0 <= i < |a.items| ==> HasType(e, Convert(e, a.items[i]).value)
    decreases e, 3
  {
    if a.Array? {
      forall i | 0 <= i < |a.items| ensures HasType(e, Convert(e, a.items[i]).value) {
        ReadIsTyped(e, a.items[i], Fresh(e));
      }
    }
  }

  // ---- The converters ----

  /** What a cast that fails leaves in the target: a container keeps what was read before the failing
      element, and anything else is unchanged. */
  ghost predicate Abandoned(t: Type, a: Any, target: Value, left: Value)
    requires Fits(t, target)
  {
    match t
    case Single(_) => left == target
    case Vector(e) =>
      if !a.Array? then left == target
      else exists n: nat :: StopsAt(e, a.items, n) && left == Items(target.items + ReadItems(e, a.items[..n]))
    case List(e) =>
      if !a.Array? then left == target
      else exists n: nat :: StopsAt(e, a.items, n) && left == Items(target.items + ReadItems(e, a.items[..n]))
    case Set(e) =>
      if !a.Array? then left == target
      else exists n: nat ::
        StopsAt(e, a.items, n) && left == Members(target.members + Elements(ReadItems(e, a.items[..n])))
    case Map(e) =>
      if !a.Object? then left == target
      else
        && left.Entries?
        && exists done, name ::
          StopsAtField(e, a.fields, done, name) && PartRead(e, a.fields, done, target.entries, left.entries)
  }

  /** A cast that fails takes nothing out of the target, keeps it if it met no container of the right
      form, and stops at the first element that cannot be read. */
  lemma AbandonedKeeps(t: Type, a: Any, target: Value, left: Value)
    requires Fits(t, target) && Abandoned(t, a, target, left)
    ensures t.Single? || (t.Map? && !a.Object?) || (!t.Map? && !a.Array?) ==> left == target
    ensures (t.Vector? || t.List?) && a.Array? ==>
              && left.Items? && target.items <= left.items
              && var n := |left.items| - |target.items|;
                 n < |a.items| && !Conforms(t.element, a.items[n]) &&
                 forall i :: 0 <= i < n ==> Conforms(t.element, a.items[i])
    ensures t.Set? ==> left.Members? && target.members <= left.members
    ensures t.Map? ==> left.Entries? && target.entries.Keys <= left.entries.Keys
    ensures t.Map? && a.Object? ==> exists k :: k in a.fields && !Conforms(t.element, a.fields[k])
  {
    match t
    case Single(_) =>
    case Map(e) =>
      if a.Object? {
        forall k | k in a.fields ensures Convert(e, a.fields[k]).Some? <==> Conforms(e, a.fields[k]) {
          ReadSucceedsIff(e, a.fields[k], Fresh(e));
        }
      }
    case _ =>
      if a.Array? {
        forall i | 0 <= i < |a.items|
          ensures Convert(t.element, a.items[i]).Some? <==> Conforms(t.element, a.items[i])
        {
          ReadSucceedsIff(t.element, a.items[i], Fresh(t.element));
        }
      }
  }

  /** Element n is the first whose cast fails. */
  ghost predicate StopsAt(e: Type, items: seq<Any>, n: nat) {
    n < |items| && ReadableItems(e, Array(items[..n])) && Convert(e, items[n]).None?
  }

  ghost predicate StopsAtField(e: Type, fields: map<string, Any>, done: map<string, Any>, name: string) {
    name in fields && name !in done && Convert(e, fields[name]).None?
  }

  /** FromJson: dispatches on the type of the target.  value is what the target holds afterwards, also
      when a cast fails. */
  method FromJson(t: Type, a: Any, target: Value) returns (ok: bool, value: Value)
    requires Fits(t, target)
    ensures ok ==> Read(t, a, target) == Some(value) && (target == Fresh(t) ==> Convert(t, a) == Some(value))
    ensures !ok ==> Read(t, a, target) == None && (target == Fresh(t) ==> Convert(t, a) == None)
    ensures !ok ==> Abandoned(t, a, target, value)
    ensures a.Null? && !t.Single? ==> ok && value == target
    decreases t, 1
  {
    match t {
      case Single(k) =>
        ok := a.Leaf? && a.scalar.Kind() == k;
        value := if ok then Plain(a.scalar) else target;
      case Vector(e) => ok, value := FromAnySequence(e, a, target.items);
      case List(e) => ok, value := FromAnySequence(e, a, target.items);
      case Set(e) => ok, value := FromAnySet(e, a, target.members);
      case Map(e) => ok, value := FromAnyMap(e, a, target.entries);
    }
  }

  /** FromAny into a vector or a list. */
  method FromAnySequence(e: Type, a: Any, target: seq<Value>) returns (ok: bool, value: Value)
    ensures ok ==> Read(Vector(e), a, Items(target)) == Read(List(e), a, Items(target)) == Some(value)
    ensures !ok ==> Read(Vector(e), a, Items(target)) == Read(List(e), a, Items(target)) == None
    ensures !ok ==> Abandoned(Vector(e), a, Items(target), value) && Abandoned(List(e), a, Items(target), value)
    ensures a.Null? ==> ok && value == Items(target)
    decreases e, 3
  {
    if a.Null? {
      return true, Items(target);
    }
    if !a.Array? {
      return false, Items(target);
    }
    var items := target;
    for i := 0 to |a.items|
      invariant ReadableItems(e, Array(a.items[..i]))
      invariant items == target + ReadItems(e, a.items[..i])
    {
      var read, x := FromJson(e, a.items[i], Fresh(e));
      if !read {
        assert StopsAt(e, a.items, i);
        return false, Items(items);
      }
      OneMoreRead(e, a.items[..i], a.items[i]);
      assert a.items[..i + 1] == a.items[..i] + [a.items[i]];
      items := items + [x];
    }
    assert a.items[..|a.items|] == a.items;
    return true, Items(items);
  }

  /** FromAny into a set. */
  method FromAnySet(e: Type, a: Any, target: set<Value>) returns (ok: bool, value: Value)
    ensures ok ==> Read(Set(e), a, Members(target)) == Some(value)
    ensures !ok ==> Read(Set(e), a, Members(target)) == None && Abandoned(Set(e), a, Members(target), value)
    ensures a.Null? ==> ok && value == Members(target)
    decreases e, 3
  {
    if a.Null? {
      return true, Members(target);
    }
    if !a.Array? {
      return false, Members(target);
    }
    var members := target;
    for i := 0 to |a.items|
      invariant ReadableItems(e, Array(a.items[..i]))
      invariant members == target + Elements(ReadItems(e, a.items[..i]))
    {
      var read, x := FromJson(e, a.items[i], Fresh(e));
      if !read {
        assert StopsAt(e, a.items, i);
        return false, Members(members);
      }
      OneMoreRead(e, a.items[..i], a.items[i]);
      assert a.items[..i + 1] == a.items[..i] + [a.items[i]];
      members := members + {x};
    }
    assert a.items[..|a.items|] == a.items;
    return true, Members(members);
  }

  /** FromAny into a map; the fields may be visited in any order. */
  method FromAnyMap(e: Type, a: Any, target: map<string, Value>) returns (ok: bool, value: Value)
    ensures ok ==> Read(Map(e), a, Entries(target)) == Some(value)
    ensures !ok ==> Read(Map(e), a, Entries(target)) == None && Abandoned(Map(e), a, Entries(target), value)
    ensures a.Null? ==> ok && value == Entries(target)
    decreases e, 3
  {
    if a.Null? {
      return true, Entries(target);
    }
    if !a.Object? {
      return false, Entries(target);
    }
    var entries, rest := target, a.fields.Keys;
    ghost var done := map[];
    assert entries == target + map[];
    while rest != {}
      invariant rest == a.fields.Keys - done.Keys && PartRead(e, a.fields, done, target, entries)
    {
      var name :| name in rest;
      var read, x := FromJson(e, a.fields[name], Fresh(e));
      if !read {
        assert StopsAtField(e, a.fields, done, name);
        return false, Entries(entries);
      }
      OneMoreField(e, a.fields, done, name, target, entries);
      entries := entries[name := x];
      rest := rest - {name};
      done := done[name := a.fields[name]];
    }
    AllFieldsRead(e, a.fields, done, target, entries);
    return true, Entries(entries);
  }

  /** The part of the fields that has been read, and what it made of the target. */
  ghost predicate PartRead(e: Type, fields: map<string, Any>, done: map<string, Any>,
                           target: map<string, Value>, value: map<string, Value>)
  {
    && (forall k :: k in done ==> k in fields && done[k] == fields[k])
    && ReadableFields(e, done) && value == target + ReadFields(e, done)
  }

  lemma OneMoreField(e: Type, fields: map<string, Any>, done: map<string, Any>, name: string,
                     target: map<string, Value>, value: map<string, Value>)
    requires PartRead(e, fields, done, target, value) && name in fields && Convert(e, fields[name]).Some?
    ensures PartRead(e, fields, done[name := fields[name]], target, value[name := Convert(e, fields[name]).value])
  {
    ReadOneMore(e, done, name, fields[name]);
    OverrideOneMore(target, ReadFields(e, done), name, Convert(e, fields[name]).value);
  }

  lemma ReadOneMore(e: Type, done: map<string, Any>, name: string, a: Any)
    requires ReadableFields(e, done) && Convert(e, a).Some?
    ensures ReadableFields(e, done[name := a])
    ensures ReadFields(e, done[name := a]) == ReadFields(e, done)[name := Convert(e, a).value]
  {
    var more := done[name := a];
    assert forall k :: k in more ==> more[k] == if k == name then a else done[k];
  }

  lemma AllFieldsRead(e: Type, fields: map<string, Any>, done: map<string, Any>,
                      target: map<string, Value>, value: map<string, Value>)
    requires PartRead(e, fields, done, target, value) && fields.Keys - done.Keys == {}
    ensures Read(Map(e), Object(fields), Entries(target)) == Some(Entries(value))
  {
    assert forall k :: k in fields ==> k !in fields.Keys - done.Keys;
    assert done == fields;
  }

  /** ToJson: dispatches on the form of the value. */
  method ToJson(v: Value) returns (a: Any)
    ensures Encodes(v, a)
    decreases v, 1
  {
    match v {
      case Plain(x) => a := Leaf(x);
      case Items(_) => a := ToAnySequence(v);
      case Members(_) => a := ToAnySet(v);
      case Entries(_) => a := ToAnyMap(v);
    }
  }

  method ToAnySequence(v: Value) returns (a: Any)
    requires v.Items?
    ensures Encodes(v, a)
    decreases v, 0
  {
    var arr := [];
    for i := 0 to |v.items|
      invariant |arr| == i && forall j :: 0 <= j < i ==> Encodes(v.items[j], arr[j])
    {
      var a_in := ToJson(v.items[i]);
      arr := arr + [a_in];
    }
    a := Array(arr);
  }

  /** ToAny of a set; the members may be visited in any order. */
  method ToAnySet(v: Value) returns (a: Any)
    requires v.Members?
    ensures Encodes(v, a)
    decreases v, 0
  {
    var arr, done := [], {};
    assert Enumerates([], {}) && EncodesEach(Members({}), [], []);
    while done != v.members
      invariant done <= v.members && Encodes(Members(done), Array(arr))
      decreases |v.members - done|
    {
      var x :| x in v.members - done;
      var a_in := ToJson(x);
      OneMoreMember(done, arr, x, a_in);
      arr := arr + [a_in];
      assert v.members - done - {x} < v.members - done;
      done := done + {x};
    }
    a := Array(arr);
  }

  /** ToAny of a map; the entries may be visited in any order. */
  method ToAnyMap(v: Value) returns (a: Any)
    requires v.Entries?
    ensures Encodes(v, a)
    decreases v, 0
  {
    var fields, rest := map[], v.entries.Keys;
    while rest != {}
      invariant rest <= v.entries.Keys && fields.Keys == v.entries.Keys - rest
      invariant forall k :: k in fields ==> Encodes(v.entries[k], fields[k])
    {
      var name :| name in rest;
      var a_in := ToJson(v.entries[name]);
      fields := fields[name := a_in];
      rest := rest - {name};
    }
    a := Object(fields);
  }

  lemma OneMoreRead(e: Type, items: seq<Any>, a: Any)
    requires ReadableItems(e, Array(items)) && Convert(e, a).Some?
    ensures ReadableItems(e, Array(items + [a]))
    ensures ReadItems(e, items + [a]) == ReadItems(e, items) + [Convert(e, a).value]
    ensures Elements(ReadItems(e, items + [a])) == Elements(ReadItems(e, items)) + {Convert(e, a).value}
  {
    var more := items + [a];
    assert forall i :: 0 <= i < |more| ==> more[i] == if i < |items| then items[i] else a;
    assert ReadItems(e, more) == ReadItems(e, items) + [Convert(e, a).value];
  }

  lemma OverrideOneMore(m: map<string, Value>, n: map<string, Value>, name: string, x: Value)
    ensures m + n[name := x] == (m + n)[name := x]
  {
  }

  lemma OneMoreMember(s: set<Value>, arr: seq<Any>, x: Value, a: Any)
    requires Encodes(Members(s), Array(arr)) && x !in s && Encodes(x, a)
    ensures Encodes(Members(s + {x}), Array(arr + [a]))
  {
    var order :| Enumerates(order, s) && EncodesEach(Members(s), order, arr);
    OneMoreEnumerated(order, s, x);
    OneMoreEncoded(order, s, arr, x, a);
  }

  lemma OneMoreEncoded(order: seq<Value>, s: set<Value>, arr: seq<Any>, x: Value, a: Any)
    requires EncodesEach(Members(s), order, arr) && Encodes(x, a)
    ensures EncodesEach(Members(s + {x}), order + [x], arr + [a])
  {
  }

  lemma OneMoreEnumerated(order: seq<Value>, s: set<Value>, x: Value)
    requires Enumerates(order, s) && x !in s
    ensures Enumerates(order + [x], s + {x})
  {
    assert Elements(order + [x]) == Elements(order) + {x};
  }
}
