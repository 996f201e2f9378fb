/** The grammar of supported types in terms of its characters. */
module TypeSpellings {
  import opened NormalizeType
  import opened TypeText

  /** The built-in types are these twenty-two. */
  lemma ScalarSpellings(n: string)
    ensures n in SCALAR_TYPES <==>
            n in {"bool", "char", "signed char", "unsigned char",
                  "int8_t", "uint8_t", "int16_t", "uint16_t", "int32_t", "uint32_t", "int64_t", "uint64_t",
                  "short", "unsigned short", "int", "unsigned int",
                  "long", "unsigned long", "long long", "unsigned long long", "float", "double"}
  {
  }

  /** Colons and perhaps a blank behind them. */
  predicate LeftMark(l: string) {
    exists k :: 0 <= k <= |l| && (forall i :: 0 <= i < k ==> l[i] == ':') && (l[k..] == "" || (k > 0 && l[k..] == " "))
  }

  predicate RightMark(r: string) {
    r in {"", "&", "&&", " &", " &&"}
  }

  lemma Marks(s: string)
    ensures IsLeft(s) <==> LeftMark(s)
    ensures IsRight(s) <==> RightMark(s)
  {
    var n := |s|;
    if IsLeft(s) {
      var k := if n > 0 && s[n - 1] == ' ' then n - 1 else n;
      assert s[k..] == if k < n then " " else "";
    }
    if LeftMark(s) {
      var k :| 0 <= k <= n && (forall i :: 0 <= i < k ==> s[i] == ':') && (s[k..] == "" || (k > 0 && s[k..] == " "));
      assert s[k..] == " " ==> n == k + 1 && s[k..][0] == s[k];
    }
  }

  predicate DecimalDigits(s: string) {
    |s| > 0 && forall i :: 0 <= i < |s| ==> 48 <= s[i] as int <= 57
  }

  /** A name is printed as it is; it must be one of those above, std::string or a known class. */
  lemma NameSpelling(t: Type, known: set<string>)
    requires !t.Array? && !t.Vector?
    ensures WellFormed(t, known) <==>
            t.StdString? || (t.Scalar? && t.name in SCALAR_TYPES) || (t.Known? && t.name in known)
    ensures Print(t) == if t.StdString? then "std::string" else t.name
  {
  }

  /** An array has its element between marks and its size, a decimal number, behind a comma and a blank. */
  lemma ArraySpelling(t: Type, known: set<string>)
    requires t.Array?
    ensures WellFormed(t, known) <==>
            LeftMark(t.left) && RightMark(t.right) && DecimalDigits(t.size) && WellFormed(t.element, known)
    ensures Print(t) == "std::array<" + ((t.left + Print(t.element) + t.right) + ", " + t.size) + ">"
  {
    Marks(t.left);
    Marks(t.right);
  }

  /** A vector has only its element. */
  lemma VectorSpelling(t: Type, known: set<string>)
    requires t.Vector?
    ensures WellFormed(t, known) <==> LeftMark(t.left) && RightMark(t.right) && WellFormed(t.element, known)
    ensures Print(t) == "std::vector<" + (t.left + Print(t.element) + t.right) + ">"
  {
    Marks(t.left);
    Marks(t.right);
  }
}
