/**
 * Reading back printed tokens: numbers, atoms, variables, strings and binaries. For
 * atoms, strings and binaries the condition under which it works is exact.
 */
module TextTokens {
  import opened Slices
  import opened Terms
  import opened Text

  // ----- what can be read back -----

  /** Characters that end a bare token. The end of the text (NUL) is one. */
  predicate Delimiter(c: Byte) {
    !(65 <= c <= 90 || 97 <= c <= 122 || 48 <= c <= 57) && c !in {95, 64, 46, 35, 58}    // _ @ . # :
  }

  /** Between quotes `q`, the text is closed by the quote after it and by no earlier one. */
  predicate QuoteSafe(w: Chars, q: Byte) {
    && 0 !in w
    && (forall i | 0 <= i < |w| && w[i] == q :: i > 0 && w[i - 1] == 92)
    && (w != [] ==> w[|w| - 1] != 92)
  }

  predicate BareAtom(n: Name) {
    n != [] && 97 <= n[0] <= 122
    && forall c | c in n :: 65 <= c <= 90 || 97 <= c <= 122 || 48 <= c <= 57 || c == 95 || c == 64
  }

  predicate AtomReadable(n: Name) {
    ValidName(n) && (BareAtom(n) || ((n == [] || !(97 <= n[0] <= 122) || 32 in n) && QuoteSafe(n, 39)))
  }

  predicate BinaryReadable(d: seq<Byte>) {
    |d| > 1 && (forall c | c in d :: 32 <= c <= 126) ==> forall i | 0 <= i < |d| :: !Matches(d, i, [34, 62, 62])
  }

  predicate VarReadable(n: Name, ty: TermType) {
    && ValidName(n)
    && n != [] && (65 <= n[0] <= 90 || n[0] == 95)
    && (forall c | c in n :: 65 <= c <= 90 || 97 <= c <= 122 || 48 <= c <= 57 || c == 95)
    && (n == [95] ==> ty.UndefinedT?)
  }

  predicate LeafReadable(t: Term) {
    match t
    case Long(i) => LONG_MIN <= i <= LONG_MAX
    case Bool(_) => true
    case Atom(n) => AtomReadable(n)
    case Str(w) => QuoteSafe(w, 34)
    case Binary(d) => BinaryReadable(d)
    case Var(n, ty) => VarReadable(n, ty)
    case _ => false
  }

  predicate Readable(t: Term) {
    match t
    case Tuple(es) => forall e | e in es :: Readable(e)
    case List(es) => forall e | e in es :: Readable(e)
    case _ => LeafReadable(t)
  }

  /** Booleans print as the atoms `true` and `false`, and are read back as those. */
  function ReadBack(t: Term): Term
    decreases t, 0
  {
    match t
    case Bool(b) => Atom(BoolName(b))
    case Tuple(es) => Tuple(ReadBackAll(es))
    case List(es) => List(ReadBackAll(es))
    case _ => t
  }

  function ReadBackAll(ts: seq<Term>): seq<Term>
    decreases ts, 1
  {
    if ts == [] then [] else [ReadBack(ts[0])] + ReadBackAll(ts[1..])
  }

  // ----- scanning lemmas -----

  lemma {:induction false} SpanRun(s: Chars, i: nat, w: Chars, k: CharClass)
    requires Matches(s, i, w)
    requires forall c | c in w :: InClass(c, k)
    requires !InClass(CharAt(s, i + |w|), k)
    ensures Span(s, i, k) == i + |w|
    decreases |w|
  {
    if w != [] {
      assert s[i] == w[0] && forall k | 0 <= k < |w[1..]| :: w[1..][k] == w[k + 1];
      SpanRun(s, i + 1, w[1..], k);
    }
  }

  // ----- numbers -----

  lemma {:induction false} DigitsOfNat(s: Chars, i: nat, n: nat)
    requires Matches(s, i, PrintNat(n))
    ensures Digits(s, i, 10, 0) == Digits(s, i + |PrintNat(n)|, 10, n)
  {
    var w := PrintNat(n);
    MatchesAt(s, i, w, |w| - 1);
    if n >= 10 {
      MatchesParts(s, i, PrintNat(n / 10), [ZERO + n % 10]);
      DigitsOfNat(s, i, n / 10);
    }
  }

  lemma {:induction false} ScanDigits(s: Chars, n: Number, w: Chars)
    requires n.start <= n.p && Matches(s, n.p, w) && forall c | c in w :: IsDigit(c)
    requires Delimiter(CharAt(s, n.p + |w|))
    ensures ScanNumber(s, n) == n.(p := n.p + |w|)
    decreases |w|
  {
    if w != [] {
      assert s[n.p] == w[0] && forall k | 0 <= k < |w[1..]| :: w[1..][k] == w[k + 1];
      ScanDigits(s, n.(p := n.p + 1), w[1..]);
    }
  }

  lemma StrToLDecimal(s: Chars, i: nat)
    requires i < |s| && (IsDigit(s[i]) || s[i] == MINUS)
    ensures StrToL(s, i, 10) ==
            Clamp(if s[i] == MINUS then 0 - Digits(s, i + 1, 10, 0) else Digits(s, i, 10, 0))
  {
    assert SkipSpaces(s, i) == i;
  }

  lemma StrToLOfLong(s: Chars, i: nat, v: int)
    requires LONG_MIN <= v <= LONG_MAX
    requires Matches(s, i, PrintLong(v)) && Delimiter(CharAt(s, i + |PrintLong(v)|))
    ensures StrToL(s, i, 10) == v
  {
    LongIsDigits(v);
    MatchesAt(s, i, PrintLong(v), 0);
    StrToLDecimal(s, i);
    if v < 0 {
      MatchesParts(s, i, [MINUS], PrintNat(-v));
      DigitsOfNat(s, i + 1, -v);
    } else {
      assert IsDigit(PrintNat(v)[0]) by { assert PrintNat(v)[0] in PrintNat(v); }
      DigitsOfNat(s, i, v);
    }
  }

  lemma LongReads(s: Chars, i: nat, v: int)
    requires LONG_MIN <= v <= LONG_MAX
    requires Matches(s, i, PrintLong(v)) && Delimiter(CharAt(s, i + |PrintLong(v)|))
    ensures ParseSimple(s, i) == Ok(Long(v), i + |PrintLong(v)|)
  {
    assert s[i] == PrintLong(v)[0];
    LongIsDigits(v);
    ScanLong(s, i, v);
    StrToLOfLong(s, i, v);
    NumberRead(s, i, i + |PrintLong(v)|, v);
  }

  lemma NumberRead(s: Chars, i: nat, e: nat, v: int)
    requires i < |s| && (IsDigit(s[i]) || s[i] == MINUS)
    requires ScanNumber(s, Number(i + 1, i, 10, false)) == Number(e, i, 10, false)
    requires StrToL(s, i, 10) == v
    ensures ParseSimple(s, i) == Ok(Long(v), e)
  {
  }

  lemma LongIsDigits(v: int)
    ensures var w := PrintLong(v);
            w != [] && (w[0] == MINUS || IsDigit(w[0])) && forall c | c in w[1..] :: IsDigit(c)
  {
    var d := PrintNat(if v < 0 then -v else v);
    assert d[0] in d && forall c | c in d[1..] :: c in d;
    if v < 0 { assert PrintLong(v)[1..] == d; }
  }

  lemma ScanLong(s: Chars, i: nat, v: int)
    requires Matches(s, i, PrintLong(v)) && Delimiter(CharAt(s, i + |PrintLong(v)|))
    ensures i < |s|
    ensures ScanNumber(s, Number(i + 1, i, 10, false)) == Number(i + |PrintLong(v)|, i, 10, false)
  {
    var w := PrintLong(v);
    LongIsDigits(v);
    assert w == [w[0]] + w[1..];
    MatchesParts(s, i, [w[0]], w[1..]);
    ScanDigits(s, Number(i + 1, i, 10, false), w[1..]);
  }

  // ----- atoms, variables, quoted text -----

  lemma BareAtomReads(s: Chars, i: nat, n: Name)
    requires BareAtom(n) && ValidName(n)
    requires Matches(s, i, n) && Delimiter(CharAt(s, i + |n|))
    ensures ParseSimple(s, i) == Ok(Atom(n), i + |n|)
  {
    MatchesAt(s, i, n, 0);
    SpanRun(s, i, n, AtomChars);
    MatchesSlice(s, i, n);
  }

  lemma {:induction false} FirstTypeAt(w: Chars, j: nat, k: nat)
    requires j <= k < |TYPE_WORDS| && Abbreviates(w, TYPE_WORDS[k].0)
    requires forall m | j <= m < k :: !Abbreviates(w, TYPE_WORDS[m].0)
    ensures FirstType(w, j) == TYPE_WORDS[k].1
    decreases k - j
  {
    if j < k { FirstTypeAt(w, j + 1, k); }
  }

  /** Where the printed word of a type stands among the known words. */
  function WordIndex(ty: TermType): nat
    requires !ty.UndefinedT?
  {
    match ty
    case LongT => 0 case DoubleT => 3 case BoolT => 4 case BinaryT => 5 case AtomT => 9
    case StringT => 10 case PidT => 11 case PortT => 12 case RefT => 13 case VarT => 15
    case TupleT => 16 case TraceT => 17 case ListT => 18 case MapT => 19
  }

  lemma TypeWordNamesType(ty: TermType)
    requires !ty.UndefinedT?
    ensures TypeNamed(TypeWord(ty)) == ty
    ensures forall c | c in TypeWord(ty) :: InClass(c, TypeChars)
  {
    var w, k := TypeWord(ty), WordIndex(ty);
    assert TYPE_WORDS[k] == (w, ty);
    forall m | 0 <= m < k ensures !Abbreviates(w, TYPE_WORDS[m].0) {
      var v := TYPE_WORDS[m].0;
      assert w[0] != v[0] || w[1] != v[1];
    }
    FirstTypeAt(w, 0, k);
  }

  /** The type annotation `::word()` at `e`. */
  lemma TypeSuffix(s: Chars, e: nat, te: nat, word: Chars)
    requires te == e + 2 + |word| && forall c | c in word :: InClass(c, TypeChars)
    requires Matches(s, e, [COLON, COLON]) && Matches(s, e + 2, word) && Matches(s, te, [LPAREN, RPAREN])
    ensures te + 1 < |s| && s[e] == COLON && s[e + 1] == COLON && s[te] == LPAREN && s[te + 1] == RPAREN
    ensures Span(s, e + 2, TypeChars) == te && s[e + 2..te] == word
  {
    MatchesPair(s, e, COLON, COLON);
    MatchesPair(s, te, LPAREN, RPAREN);
    SpanRun(s, e + 2, word, TypeChars);
    MatchesSlice(s, e + 2, word);
  }

  lemma VariableFromParts(s: Chars, i: nat, e: nat, te: nat, n: Name, ty: TermType)
    requires i <= e && e + 2 <= te && te + 1 < |s| && !ty.UndefinedT?
    requires Span(s, i, VarChars) == e && s[e] == COLON && s[e + 1] == COLON
    requires Span(s, e + 2, TypeChars) == te && s[te] == LPAREN && s[te + 1] == RPAREN
    requires TypeNamed(s[e + 2..te]) == ty && s[i..e] == n && ValidName(n) && n != ANY
    ensures ParseVariable(s, i) == Ok(Var(n, ty), te + 2)
  {
  }

  lemma TypedVariable(s: Chars, i: nat, n: Name, word: Chars, ty: TermType)
    requires VarReadable(n, ty) && !ty.UndefinedT?
    requires TypeNamed(word) == ty && forall c | c in word :: InClass(c, TypeChars)
    requires Matches(s, i, n + [COLON, COLON] + word + [LPAREN, RPAREN])
    ensures ParseVariable(s, i) == Ok(Var(n, ty), i + |n| + |word| + 4)
  {
    var e := i + |n|;
    var te := e + 2 + |word|;
    MatchesParts(s, i, n + [COLON, COLON] + word, [LPAREN, RPAREN]);
    ThreeParts(s, i, n, [COLON, COLON], word);
    TypeSuffix(s, e, te, word);
    SpanRun(s, i, n, VarChars);
    MatchesSlice(s, i, n);
    VariableFromParts(s, i, e, te, n, ty);
  }

  lemma UntypedVariable(s: Chars, i: nat, n: Name)
    requires VarReadable(n, UndefinedT) && Matches(s, i, n) && Delimiter(CharAt(s, i + |n|))
    ensures ParseVariable(s, i) == Ok(Var(n, UndefinedT), i + |n|)
  {
    SpanRun(s, i, n, VarChars);
    MatchesSlice(s, i, n);
  }

  lemma VarReads(s: Chars, i: nat, n: Name, ty: TermType)
    requires VarReadable(n, ty)
    requires Matches(s, i, PrintVar(n, ty)) && Delimiter(CharAt(s, i + |PrintVar(n, ty)|))
    ensures ParseSimple(s, i) == Ok(Var(n, ty), i + |PrintVar(n, ty)|)
  {
    assert s[i] == PrintVar(n, ty)[0] == n[0];
    if ty.UndefinedT? {
      UntypedVariable(s, i, n);
    } else {
      TypeWordNamesType(ty);
      TypedVariable(s, i, n, TypeWord(ty), ty);
    }
  }

  /** The scan stops at `e` exactly when `e` is the first quote that no backslash escapes. */
  lemma {:induction false} ScanQuotedIsFirst(s: Chars, p: nat, e: nat, q: Byte)
    requires 1 <= p <= e < |s| && s[e] == q && q != 0
    ensures ScanQuoted(s, p, q) == e <==>
            && s[e - 1] != BACKSLASH
            && forall j | p <= j < e :: s[j] != 0 && (s[j] == q ==> s[j - 1] == BACKSLASH)
    decreases e - p
  {
    if p < e && s[p] != 0 && (s[p] == q ==> s[p - 1] == BACKSLASH) {
      ScanQuotedIsFirst(s, p + 1, e, q);
    }
  }

  /** A quoted text is read back exactly when it is quote-safe. */
  lemma QuotedReads(s: Chars, i: nat, w: Chars, q: Byte, failure: Failure)
    requires Matches(s, i, [q] + w + [q])
    requires 0 !in w && q != 0 && q != BACKSLASH
    ensures ParseQuoted(s, i, q, failure) == Ok(w, i + |w| + 2) <==> QuoteSafe(w, q)
  {
    var e := i + 1 + |w|;
    ThreeParts(s, i, [q], w, [q]);
    MatchesAt(s, i, [q], 0);
    MatchesAt(s, e, [q], 0);
    MatchesSlice(s, i + 1, w);
    if QuoteSafe(w, q) {
      forall j | i + 1 <= j < e ensures s[j] != 0 && (s[j] == q ==> s[j - 1] == BACKSLASH) {
        var k := j - i - 1;
        assert s[j] == w[k];
      }
    }
    ScanQuotedIsFirst(s, i + 1, e, q);
    if ScanQuoted(s, i + 1, q) == e {
      assert forall k | 0 <= k < |w| && w[k] == q :: s[i + 1 + k] == q;
    }
  }

  // ----- binaries -----

  /** Inside the printed text, `">>` occurs exactly where it occurs in the data. */
  lemma CloseTextInside(s: Chars, j: nat, d: seq<Byte>, m: nat)
    requires Matches(s, j, d + CLOSE_TEXT) && m < |d|
    ensures Matches(s, j + m, CLOSE_TEXT) <==> Matches(d, m, CLOSE_TEXT)
  {
    MatchesParts(s, j, d, CLOSE_TEXT);
    if m + 3 <= |d| {
      assert s[j + m] == d[m] && s[j + m + 1] == d[m + 1] && s[j + m + 2] == d[m + 2];
    } else if Matches(s, j + m, CLOSE_TEXT) {
      MatchesAt(s, j + |d|, CLOSE_TEXT, 0);
      MatchesAt(s, j + m, CLOSE_TEXT, |d| - m);
      assert false;
    }
  }

  lemma {:induction false} CloseTextFound(s: Chars, j: nat, d: seq<Byte>, m: nat)
    requires m <= |d| && (forall c | c in d :: c != 0) && Matches(s, j, d + CLOSE_TEXT)
    ensures FindText(s, j + m, CLOSE_TEXT) == Some(j + |d|) <==>
            forall i | m <= i < |d| :: !Matches(d, i, CLOSE_TEXT)
    decreases |d| - m
  {
    MatchesParts(s, j, d, CLOSE_TEXT);
    if m < |d| {
      CloseTextInside(s, j, d, m);
      MatchesAt(s, j, d, m);
      assert d[m] in d;
      CloseTextFound(s, j, d, m + 1);
      if Matches(d, m, CLOSE_TEXT) {
        assert FindText(s, j + m, CLOSE_TEXT) == Some(j + m);
      } else {
        assert FindText(s, j + m, CLOSE_TEXT) == FindText(s, j + (m + 1), CLOSE_TEXT);
      }
    }
  }

  lemma TextBinaryShape(s: Chars, i: nat, d: seq<Byte>)
    requires PrintsAsText(d) && Matches(s, i, PrintBinary(d))
    ensures |PrintBinary(d)| == |d| + 6 && i + |d| + 6 <= |s|
    ensures s[i] == LESS && s[i + 1] == LESS && s[i + 2] == DQUOTE
    ensures Matches(s, i + 3, d + CLOSE_TEXT) && s[i + 3..i + 3 + |d|] == d
  {
    var open := [LESS, LESS, DQUOTE];
    assert PrintBinary(d) == open + (d + CLOSE_TEXT);
    MatchesParts(s, i, open, d + CLOSE_TEXT);
    MatchesAt(s, i, open, 0);
    MatchesAt(s, i, open, 1);
    MatchesAt(s, i, open, 2);
    MatchesParts(s, i + 3, d, CLOSE_TEXT);
    MatchesSlice(s, i + 3, d);
  }

  lemma ParseTextBinary(s: Chars, i: nat)
    requires i + 2 < |s| && s[i] == LESS && s[i + 1] == LESS && s[i + 2] == DQUOTE
    ensures ParseSimple(s, i) ==
            match FindText(s, i + 3, CLOSE_TEXT)
            case None => Err(UnclosedBinary)
            case Some(e) => Ok(Binary(s[i + 3..e]), e + 3)
  {
  }

  lemma ReadUpTo(r: Parsed<Term>, found: Option<nat>, s: Chars, b: nat, d: seq<Byte>)
    requires b + |d| <= |s| && s[b..b + |d|] == d
    requires found.Some? ==> b <= found.value <= |s|
    requires r == match found
                  case None => Err(UnclosedBinary)
                  case Some(e) => Ok(Binary(s[b..e]), e + 3)
    ensures r == Ok(Binary(d), b + |d| + 3) <==> found == Some(b + |d|)
  {
  }

  lemma TextCloses(s: Chars, b: nat, d: seq<Byte>)
    requires PrintsAsText(d) && Matches(s, b, d + CLOSE_TEXT)
    ensures FindText(s, b, CLOSE_TEXT) == Some(b + |d|) <==> BinaryReadable(d)
  {
    CloseTextFound(s, b, d, 0);
  }

  /** A printable binary is read back exactly when it does not contain `">>`. */
  lemma TextBinaryReads(s: Chars, i: nat, d: seq<Byte>)
    requires PrintsAsText(d) && Matches(s, i, PrintBinary(d))
    ensures ParseSimple(s, i) == Ok(Binary(d), i + |PrintBinary(d)|) <==> BinaryReadable(d)
  {
    TextBinaryShape(s, i, d);
    ParseTextBinary(s, i);
    TextCloses(s, i + 3, d);
    ReadUpTo(ParseSimple(s, i), FindText(s, i + 3, CLOSE_TEXT), s, i + 3, d);
  }

  lemma {:induction false} AtoiOfNat(s: Chars, i: nat, end: nat, n: nat)
    requires n < 256 && Matches(s, i, PrintNat(n))
    requires i + |PrintNat(n)| <= end < |s| && !IsDigit(s[end])
    ensures AtoiDigits(s, i, end, 0) == AtoiDigits(s, i + |PrintNat(n)|, end, n)
  {
    var w := PrintNat(n);
    MatchesAt(s, i, w, |w| - 1);
    if n >= 10 {
      MatchesParts(s, i, PrintNat(n / 10), [ZERO + n % 10]);
      AtoiOfNat(s, i, end, n / 10);
    }
  }

  /** One byte of a printed binary, up to the comma or the bracket that follows it. */
  lemma ByteReads(s: Chars, p: nat, end: nat, b: Byte)
    requires Matches(s, p, PrintNat(b))
    requires p + |PrintNat(b)| <= end < |s| && s[end] == GREATER
    requires s[p + |PrintNat(b)|] in {COMMA, GREATER}
    ensures SkipBlanks(s, p) == p < end
    ensures FastAtoi(s, p, end) == (b, p + |PrintNat(b)|)
    ensures SkipBlanks(s, p + |PrintNat(b)|) == p + |PrintNat(b)|
  {
    MatchesAt(s, p, PrintNat(b), 0);
    assert PrintNat(b)[0] in PrintNat(b);
    AtoiOfNat(s, p, end, b);
  }

  lemma ByteThenMore(s: Chars, p: nat, end: nat, b: Byte, acc: seq<Byte>)
    requires Matches(s, p, PrintNat(b))
    requires p + |PrintNat(b)| < end < |s| && s[end] == GREATER && s[p + |PrintNat(b)|] == COMMA
    ensures ParseBytes(s, p, end, acc) == ParseBytes(s, p + |PrintNat(b)| + 1, end, acc + [b])
  {
    ByteReads(s, p, end, b);
  }

  lemma LastByte(s: Chars, p: nat, end: nat, b: Byte, acc: seq<Byte>)
    requires Matches(s, p, PrintNat(b))
    requires p + |PrintNat(b)| == end < |s| && s[end] == GREATER
    ensures ParseBytes(s, p, end, acc) == Ok(acc + [b], end + 2)
  {
    ByteReads(s, p, end, b);
    LastTaken(s, p, end, b, acc);
  }

  lemma LastTaken(s: Chars, p: nat, end: nat, b: Byte, acc: seq<Byte>)
    requires p < end < |s| && s[end] == GREATER && SkipBlanks(s, p) == p && FastAtoi(s, p, end) == (b, end)
    ensures ParseBytes(s, p, end, acc) == Ok(acc + [b], end + 2)
  {
  }

  lemma CommaParts(s: Chars, p: nat, w: Chars, rest: Chars)
    requires Matches(s, p, w + [COMMA] + rest)
    ensures Matches(s, p, w) && Matches(s, p + |w| + 1, rest)
    ensures p + |w| < |s| && s[p + |w|] == COMMA
  {
    ThreeParts(s, p, w, [COMMA], rest);
    MatchesAt(s, p + |w|, [COMMA], 0);
  }

  lemma BytesParts(s: Chars, p: nat, end: nat, d: seq<Byte>)
    requires |d| > 1 && Matches(s, p, PrintBytes(d)) && end == p + |PrintBytes(d)|
    ensures var w, rest := PrintNat(d[0]), PrintBytes(d[1..]);
            && Matches(s, p, w) && p + |w| < |s| && s[p + |w|] == COMMA
            && Matches(s, p + |w| + 1, rest) && end == p + |w| + 1 + |rest|
  {
    CommaParts(s, p, PrintNat(d[0]), PrintBytes(d[1..]));
  }

  lemma {:induction false} BytesRead(s: Chars, p: nat, end: nat, d: seq<Byte>, acc: seq<Byte>, v: seq<Byte>)
    requires Matches(s, p, PrintBytes(d)) && end == p + |PrintBytes(d)| < |s| && s[end] == GREATER
    requires v == acc + d
    ensures ParseBytes(s, p, end, acc) == Ok(v, end + 2)
    decreases |d|
  {
    if d == [] {
      assert v == acc;
    } else if |d| == 1 {
      LastByte(s, p, end, d[0], acc);
      assert d == [d[0]];
    } else {
      BytesParts(s, p, end, d);
      ByteThenMore(s, p, end, d[0], acc);
      OneMore(acc, d);
      BytesRead(s, p + |PrintNat(d[0])| + 1, end, d[1..], acc + [d[0]], v);
    }
  }

  lemma {:induction false} BytesHaveNoBracket(d: seq<Byte>)
    ensures forall c | c in PrintBytes(d) :: IsDigit(c) || c == COMMA
  {
    if |d| > 1 { BytesHaveNoBracket(d[1..]); }
  }

  lemma {:induction false} BracketFound(s: Chars, j: nat, e: nat)
    requires j <= e && Matches(s, e, CLOSE_BYTES)
    requires forall k | j <= k < e :: s[k] != GREATER && s[k] != 0
    ensures FindText(s, j, CLOSE_BYTES) == Some(e)
    decreases e - j
  {
    if j < e {
      assert s[j + 0] != CLOSE_BYTES[0];
      BracketFound(s, j + 1, e);
    }
  }

  lemma BracketAfterBytes(s: Chars, j: nat, d: seq<Byte>)
    requires Matches(s, j, PrintBytes(d)) && Matches(s, j + |PrintBytes(d)|, CLOSE_BYTES)
    ensures FindText(s, j, CLOSE_BYTES) == Some(j + |PrintBytes(d)|)
    ensures s[j] != DQUOTE && s[j + |PrintBytes(d)|] == GREATER
  {
    var w := PrintBytes(d);
    MatchesAt(s, j + |w|, CLOSE_BYTES, 0);
    BytesHaveNoBracket(d);
    forall k | j <= k < j + |w| ensures s[k] != GREATER && s[k] != 0 && s[k] != DQUOTE {
      MatchesAt(s, j, w, k - j);
      assert s[k] in w;
    }
    BracketFound(s, j, j + |w|);
  }

  lemma ParseByteBinary(s: Chars, i: nat, d: seq<Byte>, e: nat)
    requires i + 2 < e + 1 < |s| && s[i] == LESS && s[i + 1] == LESS && s[i + 2] != DQUOTE
    requires FindText(s, i + 2, CLOSE_BYTES) == Some(e) && s[e] == GREATER
    requires ParseBytes(s, i + 2, e, []) == Ok(d, e + 2)
    ensures ParseSimple(s, i) == Ok(Binary(d), e + 2)
  {
  }

  lemma ByteBinaryReads(s: Chars, i: nat, d: seq<Byte>)
    requires !PrintsAsText(d) && Matches(s, i, PrintBinary(d))
    ensures ParseSimple(s, i) == Ok(Binary(d), i + |PrintBinary(d)|)
  {
    var w := PrintBytes(d);
    var open := [LESS, LESS];
    assert PrintBinary(d) == open + (w + CLOSE_BYTES);
    MatchesParts(s, i, open, w + CLOSE_BYTES);
    MatchesAt(s, i, open, 0);
    MatchesAt(s, i, open, 1);
    MatchesParts(s, i + 2, w, CLOSE_BYTES);
    BracketAfterBytes(s, i + 2, d);
    assert [] + d == d;
    BytesRead(s, i + 2, i + 2 + |w|, d, [], d);
    ParseByteBinary(s, i, d, i + 2 + |w|);
  }

  // ----- leaves -----

  lemma LeafReads(s: Chars, i: nat, t: Term)
    requires LeafReadable(t)
    requires Matches(s, i, Print(t)) && Delimiter(CharAt(s, i + |Print(t)|))
    ensures ParseSimple(s, i) == Ok(ReadBack(t), i + |Print(t)|)
  {
    match t
    case Long(v) => LongReads(s, i, v);
    case Bool(b) => BoolNamesAreBare(b); BareAtomReads(s, i, BoolName(b));
    case Atom(n) =>
      ReadableHasNoNul(n);
      CStrOfNulFree(n);
      if PrintsQuoted(n) {
        MatchesAt(s, i, Print(t), 0);
        assert QuoteSafe(n, QUOTE) by { BareHasNoBlank(n); }
        QuotedReads(s, i, n, QUOTE, UnclosedAtom);
      } else {
        BareAtomReads(s, i, n);
      }
    case Str(w) =>
      CStrOfNulFree(w);
      MatchesAt(s, i, Print(t), 0);
      QuotedReads(s, i, w, DQUOTE, UnclosedString);
    case Binary(d) =>
      if PrintsAsText(d) { TextBinaryReads(s, i, d); } else { ByteBinaryReads(s, i, d); }
    case Var(n, ty) => VarReads(s, i, n, ty);
  }

  lemma ReadableHasNoNul(n: Name)
    requires AtomReadable(n)
    ensures 0 !in n
  {
  }

  lemma BareHasNoBlank(n: Name)
    ensures BareAtom(n) ==> !PrintsQuoted(n)
  {
    if BareAtom(n) { CStrOfNulFree(n); }
    assert !InClass(BLANK, AtomChars);
  }

  lemma BoolNamesAreBare(b: bool)
    ensures BareAtom(BoolName(b)) && ValidName(BoolName(b))
  {
    CodePointsAtMostBytes(BoolName(b));
  }
}
