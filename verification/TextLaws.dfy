/**
 * The textual form in letters: what each kind of term is printed as, which words name a type,
 * and what the parser makes of the texts that the printer never writes.
 */
module TextLaws {
  import opened Slices
  import opened Terms
  import opened Text
  import opened TextTokens
  import opened TextRoundTrip

  predicate Latin(t: string) {
    forall i | 0 <= i < |t| :: t[i] as int < 256
  }

  /** The bytes of a text. */
  function Ascii(t: string): (r: Chars)
    requires Latin(t)
    ensures |r| == |t| && forall i | 0 <= i < |t| :: r[i] == t[i] as int
  {
    seq(|t|, i requires 0 <= i < |t| => t[i] as int)
  }

  // ----- the words for types -----

  /** `w` is `word`, or its first three letters or more. */
  predicate Begins(w: Chars, word: string) {
    3 <= |w| <= |word| && forall i | 0 <= i < |w| :: w[i] == word[i] as int
  }

  /** The words for a type; UndefinedT stands for all other words. */
  predicate Names(w: Chars, ty: TermType) {
    match ty
    case LongT => Begins(w, "int") || Begins(w, "integer") || Begins(w, "byte") || Begins(w, "char")
    case DoubleT => Begins(w, "double") || Begins(w, "float")
    case BoolT => Begins(w, "bool") || Begins(w, "boolean")
    case AtomT => Begins(w, "atom")
    case VarT => Begins(w, "var")
    case StringT => Begins(w, "string")
    case BinaryT => Begins(w, "binary")
    case PidT => Begins(w, "pid")
    case PortT => Begins(w, "port")
    case RefT => Begins(w, "ref") || Begins(w, "reference")
    case TupleT => Begins(w, "tuple")
    case ListT => Begins(w, "list")
    case MapT => Begins(w, "map")
    case TraceT => Begins(w, "trace")
    case UndefinedT =>
      !(Begins(w, "int") || Begins(w, "integer") || Begins(w, "byte") || Begins(w, "char")
        || Begins(w, "double") || Begins(w, "float") || Begins(w, "bool") || Begins(w, "boolean")
        || Begins(w, "atom") || Begins(w, "var") || Begins(w, "string") || Begins(w, "binary")
        || Begins(w, "pid") || Begins(w, "port") || Begins(w, "ref") || Begins(w, "reference")
        || Begins(w, "tuple") || Begins(w, "list") || Begins(w, "map") || Begins(w, "trace"))
  }

  /** The first three letters decide. */
  function HeadType(a: Byte, b: Byte, c: Byte): TermType {
    if (a, b, c) == (105, 110, 116) then LongT    // int
    else if (a, b, c) == (100, 111, 117) then DoubleT    // dou
    else if (a, b, c) == (102, 108, 111) then DoubleT    // flo
    else if (a, b, c) == (98, 111, 111) then BoolT    // boo
    else if (a, b, c) == (98, 105, 110) then BinaryT    // bin
    else if (a, b, c) == (98, 121, 116) then LongT    // byt
    else if (a, b, c) == (99, 104, 97) then LongT    // cha
    else if (a, b, c) == (97, 116, 111) then AtomT    // ato
    else if (a, b, c) == (115, 116, 114) then StringT    // str
    else if (a, b, c) == (112, 105, 100) then PidT    // pid
    else if (a, b, c) == (112, 111, 114) then PortT    // por
    else if (a, b, c) == (114, 101, 102) then RefT    // ref
    else if (a, b, c) == (118, 97, 114) then VarT    // var
    else if (a, b, c) == (116, 117, 112) then TupleT    // tup
    else if (a, b, c) == (116, 114, 97) then TraceT    // tra
    else if (a, b, c) == (108, 105, 115) then ListT    // lis
    else if (a, b, c) == (109, 97, 112) then MapT    // map
    else UndefinedT
  }

  lemma BeginsHead(w: Chars, word: string, a: Byte, b: Byte, c: Byte)
    requires Begins(w, word) && word[0] as int == a && word[1] as int == b && word[2] as int == c
    ensures |w| >= 3 && w[0] == a && w[1] == b && w[2] == c
  {
  }

  lemma HeadDecides(w: Chars, ty: TermType)
    requires Names(w, ty) && !ty.UndefinedT?
    ensures |w| >= 3 && ty == HeadType(w[0], w[1], w[2])
  {
    match ty
    case LongT =>
      if Begins(w, "int") {
        BeginsHead(w, "int", 105, 110, 116);
      } else if Begins(w, "integer") {
        BeginsHead(w, "integer", 105, 110, 116);
      } else if Begins(w, "byte") {
        BeginsHead(w, "byte", 98, 121, 116);
      } else {
        BeginsHead(w, "char", 99, 104, 97);
      }
    case DoubleT =>
      if Begins(w, "double") {
        BeginsHead(w, "double", 100, 111, 117);
      } else {
        BeginsHead(w, "float", 102, 108, 111);
      }
    case BoolT =>
      if Begins(w, "bool") {
        BeginsHead(w, "bool", 98, 111, 111);
      } else {
        BeginsHead(w, "boolean", 98, 111, 111);
      }
    case BinaryT =>
      BeginsHead(w, "binary", 98, 105, 110);
    case AtomT =>
      BeginsHead(w, "atom", 97, 116, 111);
    case StringT =>
      BeginsHead(w, "string", 115, 116, 114);
    case PidT =>
      BeginsHead(w, "pid", 112, 105, 100);
    case PortT =>
      BeginsHead(w, "port", 112, 111, 114);
    case RefT =>
      if Begins(w, "ref") {
        BeginsHead(w, "ref", 114, 101, 102);
      } else {
        BeginsHead(w, "reference", 114, 101, 102);
      }
    case VarT =>
      BeginsHead(w, "var", 118, 97, 114);
    case TupleT =>
      BeginsHead(w, "tuple", 116, 117, 112);
    case TraceT =>
      BeginsHead(w, "trace", 116, 114, 97);
    case ListT =>
      BeginsHead(w, "list", 108, 105, 115);
    case MapT =>
      BeginsHead(w, "map", 109, 97, 112);
  }

  lemma EntryNames(w: Chars, m: nat)
    requires |w| >= 3 && m < 20 && Abbreviates(w, TYPE_WORDS[m].0)
    ensures Names(w, TYPE_WORDS[m].1) && !TYPE_WORDS[m].1.UndefinedT?
  {
    if m == 0 { assert Begins(w, "int"); }
    if m == 1 { assert Begins(w, "integer"); }
    if m == 2 { assert Begins(w, "double"); }
    if m == 3 { assert Begins(w, "float"); }
    if m == 4 { assert Begins(w, "bool"); }
    if m == 5 { assert Begins(w, "binary"); }
    if m == 6 { assert Begins(w, "boolean"); }
    if m == 7 { assert Begins(w, "byte"); }
    if m == 8 { assert Begins(w, "char"); }
    if m == 9 { assert Begins(w, "atom"); }
    if m == 10 { assert Begins(w, "string"); }
    if m == 11 { assert Begins(w, "pid"); }
    if m == 12 { assert Begins(w, "port"); }
    if m == 13 { assert Begins(w, "ref"); }
    if m == 14 { assert Begins(w, "reference"); }
    if m == 15 { assert Begins(w, "var"); }
    if m == 16 { assert Begins(w, "tuple"); }
    if m == 17 { assert Begins(w, "trace"); }
    if m == 18 { assert Begins(w, "list"); }
    if m == 19 { assert Begins(w, "map"); }
  }

  lemma WordIsEntry(w: Chars, word: string, m: nat)
    requires Begins(w, word) && m < 20 && |TYPE_WORDS[m].0| == |word|
    requires forall i | 0 <= i < |word| :: TYPE_WORDS[m].0[i] == word[i] as int
    ensures Abbreviates(w, TYPE_WORDS[m].0)
  {
  }

  lemma NumberHasEntry(w: Chars, ty: TermType) returns (m: nat)
    requires Names(w, ty) && (ty.LongT? || ty.DoubleT? || ty.BoolT?)
    ensures |w| >= 3 && m < 20 && Abbreviates(w, TYPE_WORDS[m].0)
  {
    match ty
    case LongT =>
      if Begins(w, "int") {
        m := 0;
        WordIsEntry(w, "int", 0);
      } else if Begins(w, "integer") {
        m := 1;
        WordIsEntry(w, "integer", 1);
      } else if Begins(w, "byte") {
        m := 7;
        WordIsEntry(w, "byte", 7);
      } else {
        m := 8;
        WordIsEntry(w, "char", 8);
      }
    case DoubleT =>
      if Begins(w, "double") {
        m := 2;
        WordIsEntry(w, "double", 2);
      } else {
        m := 3;
        WordIsEntry(w, "float", 3);
      }
    case BoolT =>
      if Begins(w, "bool") {
        m := 4;
        WordIsEntry(w, "bool", 4);
      } else {
        m := 6;
        WordIsEntry(w, "boolean", 6);
      }
  }

  lemma LeafHasEntry(w: Chars, ty: TermType) returns (m: nat)
    requires Names(w, ty) && (ty.AtomT? || ty.StringT? || ty.BinaryT? || ty.PidT? || ty.PortT? || ty.RefT?)
    ensures |w| >= 3 && m < 20 && Abbreviates(w, TYPE_WORDS[m].0)
  {
    match ty
    case AtomT =>
      m := 9;
      WordIsEntry(w, "atom", 9);
    case StringT =>
      m := 10;
      WordIsEntry(w, "string", 10);
    case BinaryT =>
      m := 5;
      WordIsEntry(w, "binary", 5);
    case PidT =>
      m := 11;
      WordIsEntry(w, "pid", 11);
    case PortT =>
      m := 12;
      WordIsEntry(w, "port", 12);
    case RefT =>
      if Begins(w, "ref") {
        m := 13;
        WordIsEntry(w, "ref", 13);
      } else {
        m := 14;
        WordIsEntry(w, "reference", 14);
      }
  }

  lemma OtherHasEntry(w: Chars, ty: TermType) returns (m: nat)
    requires Names(w, ty) && (ty.VarT? || ty.TupleT? || ty.TraceT? || ty.ListT? || ty.MapT?)
    ensures |w| >= 3 && m < 20 && Abbreviates(w, TYPE_WORDS[m].0)
  {
    match ty
    case VarT =>
      m := 15;
      WordIsEntry(w, "var", 15);
    case TupleT =>
      m := 16;
      WordIsEntry(w, "tuple", 16);
    case TraceT =>
      m := 17;
      WordIsEntry(w, "trace", 17);
    case ListT =>
      m := 18;
      WordIsEntry(w, "list", 18);
    case MapT =>
      m := 19;
      WordIsEntry(w, "map", 19);
  }

  lemma NamesHasEntry(w: Chars, ty: TermType) returns (m: nat)
    requires Names(w, ty) && !ty.UndefinedT?
    ensures |w| >= 3 && m < 20 && Abbreviates(w, TYPE_WORDS[m].0)
  {
    if ty.LongT? || ty.DoubleT? || ty.BoolT? {
      m := NumberHasEntry(w, ty);
    } else if ty.VarT? || ty.TupleT? || ty.TraceT? || ty.ListT? || ty.MapT? {
      m := OtherHasEntry(w, ty);
    } else {
      m := LeafHasEntry(w, ty);
    }
  }

  lemma {:induction false} FirstTypeIsEntry(w: Chars, k: nat)
    requires k <= 20
    ensures if FirstType(w, k).UndefinedT? then forall m | k <= m < 20 :: !Abbreviates(w, TYPE_WORDS[m].0)
            else exists m | k <= m < 20 :: Abbreviates(w, TYPE_WORDS[m].0) && TYPE_WORDS[m].1 == FirstType(w, k)
    decreases 20 - k
  {
    if k < 20 { FirstTypeIsEntry(w, k + 1); }
  }

  /** A word is for no type, or for one of them. */
  lemma NamedOrNot(w: Chars) returns (ty: TermType)
    ensures Names(w, ty) && (Names(w, UndefinedT) ==> ty.UndefinedT?)
  {
    ty := if Names(w, LongT) then LongT else if Names(w, DoubleT) then DoubleT
          else if Names(w, BoolT) then BoolT else if Names(w, AtomT) then AtomT
          else if Names(w, VarT) then VarT else if Names(w, StringT) then StringT
          else if Names(w, BinaryT) then BinaryT else if Names(w, PidT) then PidT
          else if Names(w, PortT) then PortT else if Names(w, RefT) then RefT
          else if Names(w, TupleT) then TupleT else if Names(w, ListT) then ListT
          else if Names(w, MapT) then MapT else if Names(w, TraceT) then TraceT else UndefinedT;
  }

  lemma NamedIsFound(w: Chars, ty: TermType)
    requires Names(w, ty)
    ensures TypeNamed(w) == ty
  {
    if |w| >= 3 {
      FirstTypeIsEntry(w, 0);
      var found := FirstType(w, 0);
      if !found.UndefinedT? {
        var m :| 0 <= m < 20 && Abbreviates(w, TYPE_WORDS[m].0) && TYPE_WORDS[m].1 == found;
        EntryNames(w, m);
        HeadDecides(w, found);
        if ty.UndefinedT? { NotBoth(w, found); } else { HeadDecides(w, ty); }
      }
    }
    if !ty.UndefinedT? {
      var m := NamesHasEntry(w, ty);
    }
  }

  lemma NotBoth(w: Chars, ty: TermType)
    requires !ty.UndefinedT? && Names(w, UndefinedT)
    ensures !Names(w, ty)
  {
  }

  /** A word names the type that it is a word for, and no other type. */
  lemma TypeNamedIff(w: Chars, ty: TermType)
    ensures TypeNamed(w) == ty <==> Names(w, ty)
  {
    var named := NamedOrNot(w);
    NamedIsFound(w, named);
    if Names(w, ty) { NamedIsFound(w, ty); }
  }

  // ----- typed variables -----

  /** How a variable is written: capital letter or underscore first, then letters, digits and underscores. */
  predicate VariableName(n: Name) {
    && n != [] && (65 <= n[0] <= 90 || n[0] == 95)
    && forall k | 0 <= k < |n| :: 65 <= n[k] <= 90 || 97 <= n[k] <= 122 || 48 <= n[k] <= 57 || n[k] == 95
  }

  predicate Alphanumeric(w: Chars) {
    forall k | 0 <= k < |w| :: 65 <= w[k] <= 90 || 97 <= w[k] <= 122 || 48 <= w[k] <= 57
  }

  lemma InClasses(n: Name, w: Chars)
    requires VariableName(n) && Alphanumeric(w)
    ensures forall c | c in n :: InClass(c, VarChars)
    ensures forall c | c in w :: InClass(c, TypeChars)
  {
  }

  lemma AnnotationFrame(s: Chars, i: nat, n: Name, w: Chars, e: nat, te: nat)
    requires VariableName(n) && Alphanumeric(w) && e == i + |n| && te == e + 2 + |w|
    requires Matches(s, i, n + [58, 58] + w + [40, 41])
    ensures te + 1 < |s| && s[e] == 58 && s[e + 1] == 58 && s[te] == 40 && s[te + 1] == 41
    ensures s[i] == n[0] && Span(s, i, VarChars) == e && Span(s, e + 2, TypeChars) == te
    ensures s[i..e] == n && s[e + 2..te] == w
  {
    InClasses(n, w);
    FourParts(s, i, n, [58, 58], w, [40, 41]);
    MatchesAt(s, i, n, 0);
    TypeSuffix(s, e, te, w);
    SpanRun(s, i, n, VarChars);
    MatchesSlice(s, i, n);
  }

  /** What an annotated variable that ends at `e` is read as. */
  function Annotated(n: Name, ty: TermType, e: nat): Parsed<Term> {
    if ty.UndefinedT? then Err(BadTypeName)
    else if |n| > 1021 || Utf8Length(n) > 255 then Err(NameTooLong)
    else Ok(Var(n, if n == [95] then UndefinedT else ty), e)
  }

  /**
   * `Name::word()` is a variable of the type that the word names (`_` never has a type), and
   * an error if it names none or the name is too long.
   */
  lemma AnnotationReads(s: Chars, i: nat, n: Name, w: Chars, ty: TermType)
    requires VariableName(n) && Alphanumeric(w) && Names(w, ty)
    requires Matches(s, i, n + [58, 58] + w + [40, 41])
    ensures ParseSimple(s, i) == Annotated(n, ty, i + |n| + |w| + 4)
  {
    AnnotationFrame(s, i, n, w, i + |n|, i + |n| + 2 + |w|);
    TypeNamedIff(w, ty);
    LetterBegins(s, i);
    AnnotationParsed(s, i, n, w, ty, i + |n|, i + |n| + 2 + |w|);
  }

  lemma LetterBegins(s: Chars, i: nat)
    requires i < |s| && (65 <= s[i] <= 90 || s[i] == 95)
    ensures ParseSimple(s, i) == ParseVariable(s, i)
  {
  }

  lemma AnnotationParsed(s: Chars, i: nat, n: Name, w: Chars, ty: TermType, e: nat, te: nat)
    requires i <= e && e + 2 <= te && te + 1 < |s| && TypeNamed(w) == ty
    requires s[e] == 58 && s[e + 1] == 58 && s[te] == 40 && s[te + 1] == 41
    requires Span(s, i, VarChars) == e && Span(s, e + 2, TypeChars) == te && s[i..e] == n && s[e + 2..te] == w
    ensures ParseVariable(s, i) == Annotated(n, ty, te + 2)
  {
  }

  /** Without the parentheses the annotation is an error. */
  lemma AnnotationNeedsParentheses(s: Chars, i: nat, n: Name, w: Chars)
    requires VariableName(n) && Alphanumeric(w) && Matches(s, i, n + [58, 58] + w)
    requires var c := CharAt(s, i + |n| + 2 + |w|); !Alphanumeric([c])
    requires CharAt(s, i + |n| + 2 + |w|) != 40 || CharAt(s, i + |n| + 3 + |w|) != 41
    ensures ParseSimple(s, i) == Err(BadTypeSyntax)
  {
    InClasses(n, w);
    var e := i + |n|;
    ThreeParts(s, i, n, [58, 58], w);
    MatchesPair(s, e, 58, 58);
    MatchesAt(s, i, n, 0);
    SpanRun(s, i, n, VarChars);
    assert [CharAt(s, e + 2 + |w|)][0] == CharAt(s, e + 2 + |w|);
    SpanRun(s, e + 2, w, TypeChars);
  }
}
