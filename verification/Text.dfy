/**
 * The textual form of terms: what `dump` prints and what `eformat` parses, as
 * functions of the text and a position. A text is a C string: reading at its end
 * gives NUL.
 */
module Text {
  import opened Slices
  import opened Terms

  type Chars = seq<Byte>

  const TAB: Byte := 9
  const NEWLINE: Byte := 10
  const RETURN: Byte := 13
  const BLANK: Byte := 32
  const DQUOTE: Byte := 34
  const HASH: Byte := 35
  const DOLLAR: Byte := 36
  const PERCENT: Byte := 37
  const QUOTE: Byte := 39
  const LPAREN: Byte := 40
  const RPAREN: Byte := 41
  const COMMA: Byte := 44
  const MINUS: Byte := 45
  const DOT: Byte := 46
  const ZERO: Byte := 48
  const COLON: Byte := 58
  const LESS: Byte := 60
  const GREATER: Byte := 62
  const AT: Byte := 64
  const LBRACKET: Byte := 91
  const BACKSLASH: Byte := 92
  const RBRACKET: Byte := 93
  const UNDERSCORE: Byte := 95
  const LBRACE: Byte := 123
  const PIPE: Byte := 124
  const RBRACE: Byte := 125
  const TILDE: Byte := 126

  predicate IsUpper(c: Byte) { 65 <= c <= 90 }
  predicate IsLower(c: Byte) { 97 <= c <= 122 }
  predicate IsDigit(c: Byte) { 48 <= c <= 57 }
  predicate IsAlnum(c: Byte) { IsUpper(c) || IsLower(c) || IsDigit(c) }
  predicate IsBlank(c: Byte) { c == BLANK || c == TAB || c == NEWLINE || c == RETURN }

  function CharAt(s: Chars, i: nat): Byte {
    if i < |s| then s[i] else 0
  }

  // ----- printing -----

  function PrintNat(n: nat): (r: Chars)
    ensures r != [] && forall c | c in r :: IsDigit(c)
  {
    if n < 10 then [ZERO + n] else PrintNat(n / 10) + [ZERO + n % 10]
  }

  function PrintLong(i: int): Chars {
    if i < 0 then [MINUS] + PrintNat(-i) else PrintNat(i)
  }

  /** The word that names a type in `Name::word()`; empty for an untyped variable. */
  function TypeWord(ty: TermType): Chars {
    match ty
    case UndefinedT => []
    case LongT => [105, 110, 116]                  // int
    case DoubleT => [102, 108, 111, 97, 116]       // float
    case BoolT => [98, 111, 111, 108]              // bool
    case AtomT => [97, 116, 111, 109]              // atom
    case VarT => [118, 97, 114]                    // var
    case StringT => [115, 116, 114, 105, 110, 103] // string
    case BinaryT => [98, 105, 110, 97, 114, 121]   // binary
    case PidT => [112, 105, 100]                   // pid
    case PortT => [112, 111, 114, 116]             // port
    case RefT => [114, 101, 102]                   // ref
    case TupleT => [116, 117, 112, 108, 101]       // tuple
    case ListT => [108, 105, 115, 116]             // list
    case MapT => [109, 97, 112]                    // map
    case TraceT => [116, 114, 97, 99, 101]         // trace
  }

  function PrintVar(n: Name, ty: TermType): Chars {
    if ty.UndefinedT? then n else n + [COLON, COLON] + TypeWord(ty) + [LPAREN, RPAREN]
  }

  /** `atom::dump` quotes the empty atom, atoms not led by `a`..`z` and atoms with a blank. */
  predicate PrintsQuoted(n: Name) {
    n == [] || !IsLower(n[0]) || BLANK in CStr(n)
  }

  /** Atoms and strings are printed up to their first NUL. */
  function PrintAtom(n: Name): Chars {
    if PrintsQuoted(n) then [QUOTE] + CStr(n) + [QUOTE] else CStr(n)
  }

  function PrintString(s: Chars): Chars {
    [DQUOTE] + CStr(s) + [DQUOTE]
  }

  predicate PrintsAsText(d: seq<Byte>) {
    |d| > 1 && forall c | c in d :: BLANK <= c <= TILDE
  }

  function PrintBytes(d: seq<Byte>): Chars {
    if d == [] then []
    else if |d| == 1 then PrintNat(d[0])
    else PrintNat(d[0]) + [COMMA] + PrintBytes(d[1..])
  }

  function PrintBinary(d: seq<Byte>): Chars {
    [LESS, LESS] + (if PrintsAsText(d) then [DQUOTE] + d + [DQUOTE] else PrintBytes(d)) + [GREATER, GREATER]
  }

  /** `.id` for every id. */
  function PrintIds(ids: seq<nat>): Chars {
    if ids == [] then [] else [DOT] + PrintNat(ids[0]) + PrintIds(ids[1..])
  }

  /** `,creation>`, in the default configuration that displays a positive creation. */
  function PrintCreation(creation: nat): Chars {
    (if creation > 0 then [COMMA] + PrintNat(creation) else []) + [GREATER]
  }

  function Print(t: Term): Chars
    decreases t, 0
  {
    match t
    case Long(i) => PrintLong(i)
    case Bool(b) => BoolName(b)
    case Atom(n) => PrintAtom(n)
    case Str(s) => PrintString(s)
    case Binary(d) => PrintBinary(d)
    case Var(n, ty) => PrintVar(n, ty)
    case Pid(n, id, serial, c) => [HASH, 80, 105, 100, LESS] + PrintAtom(n) + PrintIds([id, serial]) + PrintCreation(c)
    case Ref(n, ids, c) => [HASH, 82, 101, 102, LESS] + PrintAtom(n) + PrintIds(ids) + PrintCreation(c)
    case Tuple(es) => [LBRACE] + PrintAll(es, true) + [RBRACE]
    case List(es) => [LBRACKET] + PrintAll(es, true) + [RBRACKET]
  }

  function PrintAll(ts: seq<Term>, first: bool): Chars
    decreases ts, 1
  {
    if ts == [] then []
    else (if first then [] else [COMMA]) + Print(ts[0]) + PrintAll(ts[1..], false)
  }

  // ----- parsing -----

  datatype Failure =
    | InvalidTerm
    | BadTypeName
    | BadTypeSyntax
    | UnclosedAtom
    | UnclosedString
    | BadList
    | BadBinary
    | UnclosedBinary
    | BadByteValue
    | BadByteDelimiter
    | NameTooLong
    | PastEnd           // `$` as the last character: the source reads on past the terminator
    | DoubleLiteral     // not modelled
    | Directive         // not modelled

  datatype Parsed<+T> = Ok(value: T, pos: nat) | Err(failure: Failure)

  /** `skip_ws_and_comments`; `inside` tells whether a `%` comment is open. */
  function Skip(s: Chars, i: nat, inside: bool): (j: nat)
    requires i <= |s|
    ensures i <= j <= |s|
    decreases |s| - i
  {
    if i == |s| || s[i] == 0 then i
    else if inside then Skip(s, i + 1, s[i] != NEWLINE)
    else if IsBlank(s[i]) then Skip(s, i + 1, false)
    else if s[i] == PERCENT then Skip(s, i + 1, true)
    else i
  }

  datatype CharClass = VarChars | AtomChars | TypeChars

  predicate InClass(c: Byte, k: CharClass) {
    match k
    case VarChars => IsAlnum(c) || c == UNDERSCORE
    case AtomChars => IsAlnum(c) || c == UNDERSCORE || c == AT
    case TypeChars => IsAlnum(c)
  }

  /** The end of the longest run of class `k` that starts at `i`. */
  function Span(s: Chars, i: nat, k: CharClass): (j: nat)
    requires i <= |s|
    ensures i <= j <= |s|
    decreases |s| - i
  {
    if i < |s| && InClass(s[i], k) then Span(s, i + 1, k) else i
  }

  /** `strncmp(p, word, |p|) == 0`. */
  predicate Abbreviates(p: Chars, word: Chars) {
    |p| <= |word| && forall k | 0 <= k < |p| :: p[k] == word[k]
  }

  /** The words that `type_string_to_type` knows, in the order in which it tries them. */
  const TYPE_WORDS: seq<(Chars, TermType)> := [
    ([105, 110, 116], LongT),                               // int
    ([105, 110, 116, 101, 103, 101, 114], LongT),           // integer
    ([100, 111, 117, 98, 108, 101], DoubleT),               // double
    ([102, 108, 111, 97, 116], DoubleT),                    // float
    ([98, 111, 111, 108], BoolT),                           // bool
    ([98, 105, 110, 97, 114, 121], BinaryT),                // binary
    ([98, 111, 111, 108, 101, 97, 110], BoolT),             // boolean
    ([98, 121, 116, 101], LongT),                           // byte
    ([99, 104, 97, 114], LongT),                            // char
    ([97, 116, 111, 109], AtomT),                           // atom
    ([115, 116, 114, 105, 110, 103], StringT),              // string
    ([112, 105, 100], PidT),                                // pid
    ([112, 111, 114, 116], PortT),                          // port
    ([114, 101, 102], RefT),                                // ref
    ([114, 101, 102, 101, 114, 101, 110, 99, 101], RefT),   // reference
    ([118, 97, 114], VarT),                                 // var
    ([116, 117, 112, 108, 101], TupleT),                    // tuple
    ([116, 114, 97, 99, 101], TraceT),                      // trace
    ([108, 105, 115, 116], ListT),                          // list
    ([109, 97, 112], MapT)                                  // map
  ]

  function FirstType(w: Chars, k: nat): TermType
    requires k <= |TYPE_WORDS|
    decreases |TYPE_WORDS| - k
  {
    if k == |TYPE_WORDS| then UndefinedT
    else if Abbreviates(w, TYPE_WORDS[k].0) then TYPE_WORDS[k].1
    else FirstType(w, k + 1)
  }

  /** `type_string_to_type`: an abbreviation of three letters or more will do. */
  function TypeNamed(w: Chars): TermType {
    if |w| < 3 then UndefinedT else FirstType(w, 0)
  }

  /** The constructor `var(name, type)`: `_` never carries a type. */
  function MakeVar(n: Name, ty: TermType, pos: nat): Parsed<Term> {
    if ValidName(n) then Ok(Var(n, if n == ANY then UndefinedT else ty), pos) else Err(NameTooLong)
  }

  function MakeAtom(n: Name, pos: nat): Parsed<Term> {
    if ValidName(n) then Ok(Atom(n), pos) else Err(NameTooLong)
  }

  function ParseVariable(s: Chars, i: nat): (r: Parsed<Term>)
    requires i <= |s|
    ensures r.Ok? ==> i <= r.pos <= |s|
  {
    var end := Span(s, i, VarChars);
    if CharAt(s, end) == COLON && CharAt(s, end + 1) == COLON then
      var tps := end + 2;
      var te := Span(s, tps, TypeChars);
      if CharAt(s, te) == LPAREN && CharAt(s, te + 1) == RPAREN then
        var ty := TypeNamed(s[tps..te]);
        if ty.UndefinedT? then Err(BadTypeName) else MakeVar(s[i..end], ty, te + 2)
      else Err(BadTypeSyntax)
    else MakeVar(s[i..end], UndefinedT, end)
  }

  function ParseAtom(s: Chars, i: nat): (r: Parsed<Term>)
    requires i <= |s|
    ensures r.Ok? ==> i <= r.pos <= |s|
  {
    var j := Skip(s, i, false);
    var end := Span(s, j, AtomChars);
    MakeAtom(s[j..end], end)
  }

  /** The first `q` at or after `p` that no backslash precedes, or the end of the text. */
  function ScanQuoted(s: Chars, p: nat, q: Byte): (j: nat)
    requires 1 <= p <= |s|
    ensures p <= j <= |s|
    decreases |s| - p
  {
    if p == |s| || s[p] == 0 || (s[p] == q && s[p - 1] != BACKSLASH) then p
    else ScanQuoted(s, p + 1, q)
  }

  /** The text between the quote at `i` and the one that closes it. */
  function ParseQuoted(s: Chars, i: nat, q: Byte, failure: Failure): (r: Parsed<Chars>)
    requires i < |s| && q != 0
    ensures r.Ok? ==> i < r.pos <= |s|
  {
    var p := ScanQuoted(s, i + 1, q);
    if CharAt(s, p) != q then Err(failure) else Ok(s[i + 1..p], p + 1)
  }

  // Numbers

  function Clamp(v: int): int {
    if v > LONG_MAX then LONG_MAX else if v < LONG_MIN then LONG_MIN else v
  }

  /** Conversion to a 32-bit `int`. */
  function Wrap32(v: int): (w: int)
    ensures -0x8000_0000 <= w < 0x8000_0000
  {
    (v + 0x8000_0000) % 0x1_0000_0000 - 0x8000_0000
  }

  function DigitValue(c: Byte): nat {
    if IsDigit(c) then c - 48
    else if IsLower(c) then c - 97 + 10
    else if IsUpper(c) then c - 65 + 10
    else 36
  }

  /** `acc` followed by the digits of base `base` that start at `i`. */
  function Digits(s: Chars, i: nat, base: nat, acc: nat): nat
    requires i <= |s|
    decreases |s| - i
  {
    if i < |s| && DigitValue(s[i]) < base then Digits(s, i + 1, base, acc * base + DigitValue(s[i])) else acc
  }

  function SkipSpaces(s: Chars, i: nat): (j: nat)
    requires i <= |s|
    ensures i <= j <= |s|
    decreases |s| - i
  {
    if i < |s| && (s[i] == BLANK || 9 <= s[i] <= 13) then SkipSpaces(s, i + 1) else i
  }

  /** The C library's `strtol` on the text at `i`. */
  function StrToL(s: Chars, i: nat, base: int): int
    requires i <= |s|
  {
    if base < 0 || base == 1 || base > 36 then 0
    else
      var j := SkipSpaces(s, i);
      var k := if CharAt(s, j) == MINUS || CharAt(s, j) == 43 then j + 1 else j;
      var hex := CharAt(s, k) == ZERO && (CharAt(s, k + 1) == 120 || CharAt(s, k + 1) == 88);
      var v :=
        if hex && (base == 0 || base == 16) then Digits(s, k + 2, 16, 0)
        else if base != 0 then Digits(s, k, base, 0)
        else if CharAt(s, k) == ZERO then Digits(s, k, 8, 0)
        else Digits(s, k, 10, 0);
      Clamp(if CharAt(s, j) == MINUS then -v else v)
  }

  /** Loop state of `pdigit`: cursor, where the number starts, its base, dot seen. */
  datatype Number = Number(p: nat, start: nat, base: int, dot: bool)

  function ScanNumber(s: Chars, n: Number): (r: Number)
    requires n.start <= n.p <= |s|
    ensures r.start <= r.p <= |s| && n.p <= r.p
    decreases |s| - n.p
  {
    var c := CharAt(s, n.p);
    if IsDigit(c) then ScanNumber(s, n.(p := n.p + 1))
    else if c == DOT && !n.dot then ScanNumber(s, n.(p := n.p + 1, dot := true))
    else if c == HASH then
      ScanNumber(s, Number(n.p + 1, n.p + 1, Wrap32(StrToL(s, n.start, 10)), n.dot))
    else n
  }

  function ParseNumber(s: Chars, i: nat): (r: Parsed<Term>)
    requires i < |s| && (IsDigit(s[i]) || s[i] == MINUS)
    ensures r.Ok? ==> i < r.pos <= |s|
  {
    var n := ScanNumber(s, Number(i + 1, i, 10, false));
    if n.dot then Err(DoubleLiteral) else Ok(Long(StrToL(s, n.start, n.base)), n.p)
  }

  // Binaries

  /** `strstr`. */
  function FindText(s: Chars, i: nat, w: Chars): (r: Option<nat>)
    requires i <= |s|
    ensures r.Some? ==> i <= r.value && Matches(s, r.value, w)
    decreases |s| - i
  {
    if Matches(s, i, w) then Some(i)
    else if i == |s| || s[i] == 0 then None
    else FindText(s, i + 1, w)
  }

  function SkipBlanks(s: Chars, i: nat): (j: nat)
    requires i <= |s|
    ensures i <= j <= |s|
    decreases |s| - i
  {
    if i < |s| && (s[i] == BLANK || s[i] == TAB) then SkipBlanks(s, i + 1) else i
  }

  /** The digit loop of `fast_atoi`: the accumulator and where it stopped. */
  function AtoiDigits(s: Chars, p: nat, end: nat, x: int): (r: (int, nat))
    requires p <= end < |s| && !IsDigit(s[end])
    ensures p <= r.1 <= end
    decreases end - p
  {
    if IsDigit(s[p]) then AtoiDigits(s, p + 1, end, Wrap32(x * 10 + s[p] - 48)) else (x, p)
  }

  /** `fast_atoi<int, false>` on a non-empty range. */
  function FastAtoi(s: Chars, p: nat, end: nat): (r: (int, nat))
    requires p < end < |s| && !IsDigit(s[end])
    ensures p <= r.1 <= end
  {
    if s[p] == MINUS then var (x, q) := AtoiDigits(s, p + 1, end, 0); (Wrap32(-x), q)
    else AtoiDigits(s, p, end, 0)
  }

  /** The bytes between `p` and the `>>` at `end`, after those already collected. */
  function ParseBytes(s: Chars, p: nat, end: nat, acc: seq<Byte>): (r: Parsed<seq<Byte>>)
    requires p <= end < |s| && s[end] == GREATER
    ensures r.Ok? ==> r.pos == end + 2
    decreases end - p
  {
    if p == end then Ok(acc, end + 2)
    else
      var p1 := SkipBlanks(s, p);
      SkipBlanksStops(s, p, end);
      if p1 == end then Err(BadBinary)
      else
        var (x, q) := FastAtoi(s, p1, end);
        if x < 0 || x > 255 then Err(BadByteValue)
        else
          SkipBlanksStops(s, q, end);
          var q1 := SkipBlanks(s, q);
          if s[q1] == COMMA then ParseBytes(s, q1 + 1, end, acc + [x])
          else if q1 < end then Err(BadByteDelimiter)
          else Ok(acc + [x], end + 2)
  }

  lemma {:induction false} SkipBlanksStops(s: Chars, p: nat, end: nat)
    requires p <= end < |s| && s[end] == GREATER
    ensures p <= SkipBlanks(s, p) <= end
    decreases end - p
  {
    if p < end && (s[p] == BLANK || s[p] == TAB) { SkipBlanksStops(s, p + 1, end); }
  }

  const CLOSE_TEXT: Chars := [DQUOTE, GREATER, GREATER]
  const CLOSE_BYTES: Chars := [GREATER, GREATER]

  /** A binary whose first `<` is at `i - 1`. */
  function ParseBinary(s: Chars, i: nat): (r: Parsed<Term>)
    requires i <= |s|
    ensures r.Ok? ==> i < r.pos <= |s|
  {
    if CharAt(s, i) != LESS then Err(BadBinary)
    else if CharAt(s, i + 1) == DQUOTE then
      match FindText(s, i + 2, CLOSE_TEXT)
      case None => Err(UnclosedBinary)
      case Some(end) => Ok(Binary(s[i + 2..end]), end + 3)
    else
      match FindText(s, i + 1, CLOSE_BYTES)
      case None => Err(UnclosedBinary)
      case Some(end) =>
        assert s[end] == CLOSE_BYTES[0];
        match ParseBytes(s, i + 1, end, [])
        case Ok(d, pos) => Ok(Binary(d), pos)
        case Err(e) => Err(e)
  }

  // Terms

  function SignedChar(c: Byte): int {
    if c < 128 then c else c - 256
  }

  /** Everything but tuples and lists, from its first character on. */
  function ParseSimple(s: Chars, j: nat): (r: Parsed<Term>)
    ensures r.Ok? ==> j < r.pos <= |s|
  {
    var c := CharAt(s, j);
    if c == LESS then ParseBinary(s, j + 1)
    else if c == DOLLAR then
      if CharAt(s, j + 1) == 0 then Err(PastEnd) else Ok(Long(SignedChar(s[j + 1])), j + 2)
    else if c == TILDE then Err(Directive)
    else if IsLower(c) then ParseAtom(s, j)
    else if IsUpper(c) || c == UNDERSCORE then ParseVariable(s, j)
    else if IsDigit(c) || c == MINUS then ParseNumber(s, j)
    else if c == DQUOTE then
      match ParseQuoted(s, j, DQUOTE, UnclosedString)
      case Ok(v, pos) => Ok(Str(v), pos)
      case Err(e) => Err(e)
    else if c == QUOTE then
      match ParseQuoted(s, j, QUOTE, UnclosedAtom)
      case Ok(v, pos) => MakeAtom(v, pos)
      case Err(e) => Err(e)
    else Err(InvalidTerm)
  }

  /** A parser of simple terms: what it makes of the text at each position. */
  type SimpleParser = nat -> Parsed<Term>

  ghost predicate Advances(s: Chars, simple: SimpleParser) {
    forall j: nat :: simple(j).Ok? ==> j < simple(j).pos <= |s|
  }

  /** The bracket structure of `eformat`, over any parser of simple terms. */
  function TermAt(s: Chars, simple: SimpleParser, i: nat): (r: Parsed<Term>)
    requires i <= |s| && Advances(s, simple)
    ensures r.Ok? ==> i < r.pos <= |s|
    decreases |s| - i, 1
  {
    var j := Skip(s, i, false);
    var c := CharAt(s, j);
    if c == LBRACE then
      match ItemsAt(s, simple, j + 1, RBRACE, [])
      case Ok(v, pos) => Ok(Tuple(v), pos)
      case Err(e) => Err(e)
    else if c == LBRACKET then
      if CharAt(s, j + 1) == RBRACKET then Ok(List([]), j + 2)
      else
        match ItemsAt(s, simple, j + 1, RBRACKET, [])
        case Ok(v, pos) => Ok(List(v), pos)
        case Err(e) => Err(e)
    else simple(j)
  }

  /**
   * `ptuple` and `plist`, told apart by their closing bracket. After `| Var` the list
   * parser insists on `]` but leaves the cursor on it.
   */
  function ItemsAt(s: Chars, simple: SimpleParser, i: nat, close: Byte, acc: seq<Term>): (r: Parsed<seq<Term>>)
    requires i <= |s| && close != 0 && Advances(s, simple)
    ensures r.Ok? ==> i < r.pos <= |s|
    decreases |s| - i, 2
  {
    var j := Skip(s, i, false);
    var c := CharAt(s, j);
    if c == close then Ok(acc, j + 1)
    else if c == COMMA then ItemsAt(s, simple, j + 1, close, acc)
    else if c == PIPE && close == RBRACKET then TailAt(s, simple, j + 1, acc)
    else
      match TermAt(s, simple, j)
      case Ok(t, k) => ItemsAt(s, simple, k, close, acc + [t])
      case Err(e) => Err(e)
  }

  function TailAt(s: Chars, simple: SimpleParser, i: nat, acc: seq<Term>): (r: Parsed<seq<Term>>)
    requires i <= |s| && Advances(s, simple)
    ensures r.Ok? ==> i <= r.pos <= |s|
  {
    var j := Skip(s, i, false);
    var c := CharAt(s, j);
    if !IsUpper(c) && c != UNDERSCORE then Err(BadList)
    else
      match simple(j)
      case Err(e) => Err(e)
      case Ok(v, k) =>
        var k' := Skip(s, k, false);
        if CharAt(s, k') == RBRACKET then Ok(acc + [v], k') else Err(BadList)
  }

  function Simple(s: Chars): SimpleParser {
    (j: nat) => ParseSimple(s, j)
  }

  /** `eformat`: the term at position `i`, and the position behind it. */
  function ParseTerm(s: Chars, i: nat): (r: Parsed<Term>)
    requires i <= |s|
    ensures r.Ok? ==> i < r.pos <= |s|
  {
    TermAt(s, Simple(s), i)
  }
}
