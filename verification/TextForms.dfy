/**
 * The forms of texts in literal characters: what each term is printed as, and what the parser
 * makes of characters, byte lists and separators that the printer never writes that way.
 */
module TextForms {
  import opened Slices
  import opened Terms
  import opened Text
  import opened TextTokens
  import opened TextRoundTrip
  import opened TextLaws

  // ----- numbers -----

  predicate Decimal(w: Chars) {
    forall k | 0 <= k < |w| :: 48 <= w[k] <= 57
  }

  /** The value of a decimal number. */
  function Place(w: Chars): nat
    requires Decimal(w)
  {
    if w == [] then 0 else Place(w[..|w| - 1]) * 10 + (w[|w| - 1] as int - 48)
  }

  /** Numbers are printed in decimal, without leading zeros. */
  lemma {:induction false} NatForm(n: nat)
    ensures Decimal(PrintNat(n)) && Place(PrintNat(n)) == n
    ensures |PrintNat(n)| > 1 ==> PrintNat(n)[0] != 48
  {
    var w := PrintNat(n);
    if n >= 10 {
      NatForm(n / 10);
      assert w[..|w| - 1] == PrintNat(n / 10);
    } else {
      assert w[..0] == [];
    }
  }

  lemma LongForm(i: int)
    ensures var w := Print(Long(i));
      if i < 0 then w == [45] + PrintNat(-i) else w == PrintNat(i)
  {
  }

  // ----- what terms are printed as -----

  /** Texts with a comma between each two. */
  function Commas(ws: seq<Chars>): Chars {
    if ws == [] then [] else if |ws| == 1 then ws[0] else ws[0] + [44] + Commas(ws[1..])
  }

  function Printed(ts: seq<Term>): (r: seq<Chars>)
    ensures |r| == |ts|
  {
    seq(|ts|, i requires 0 <= i < |ts| => Print(ts[i]))
  }

  function Decimals(d: seq<Byte>): (r: seq<Chars>)
    ensures |r| == |d|
  {
    seq(|d|, i requires 0 <= i < |d| => PrintNat(d[i]))
  }

  /** Quotes appear unless the name starts with a small letter and holds no blank; a NUL ends it. */
  lemma AtomForm(n: Name)
    ensures Print(Atom(n)) ==
            if n != [] && 97 <= n[0] <= 122 && 32 !in CStr(n) then CStr(n) else [39] + CStr(n) + [39]
  {
  }

  lemma BoolForm(b: bool)
    ensures Print(Bool(b)) == if b then Ascii("true") else Ascii("false")
  {
    assert Ascii("true") == TRUE_NAME;
    assert Ascii("false") == FALSE_NAME;
  }

  lemma StringForm(w: Chars)
    ensures Print(Str(w)) == [34] + CStr(w) + [34]
  {
  }

  /** Two or more printable characters are printed as text, all else as a list of numbers. */
  lemma BinaryForm(d: seq<Byte>)
    ensures Print(Binary(d)) ==
            if |d| > 1 && forall k | 0 <= k < |d| :: 32 <= d[k] <= 126
            then [60, 60, 34] + d + [34, 62, 62] else [60, 60] + Commas(Decimals(d)) + [62, 62]
  {
    BytesForm(d);
    if PrintsAsText(d) {
      assert forall k | 0 <= k < |d| :: d[k] in d;
    }
  }

  lemma {:induction false} BytesForm(d: seq<Byte>)
    ensures PrintBytes(d) == Commas(Decimals(d))
  {
    if |d| > 1 {
      BytesForm(d[1..]);
      assert Decimals(d)[1..] == Decimals(d[1..]);
    }
  }

  /** The word that a type is printed as. */
  function Word(ty: TermType): string
    requires !ty.UndefinedT?
  {
    match ty
    case LongT => "int" case DoubleT => "float" case BoolT => "bool" case AtomT => "atom" case VarT => "var"
    case StringT => "string" case BinaryT => "binary" case PidT => "pid" case PortT => "port" case RefT => "ref"
    case TupleT => "tuple" case ListT => "list" case MapT => "map" case TraceT => "trace"
  }

  lemma WordForm(ty: TermType)
    requires !ty.UndefinedT?
    ensures Latin(Word(ty)) && TypeWord(ty) == Ascii(Word(ty))
  {
  }

  lemma VariableForm(n: Name, ty: TermType)
    ensures Print(Var(n, UndefinedT)) == n
    ensures !ty.UndefinedT? ==> Latin(Word(ty)) && Print(Var(n, ty)) == n + [58, 58] + Ascii(Word(ty)) + [40, 41]
  {
    if !ty.UndefinedT? { WordForm(ty); }
  }

  lemma PidForm(n: Name, id: nat, serial: nat, creation: nat)
    ensures Print(Pid(n, id, serial, creation)) ==
            Ascii("#Pid<") + Print(Atom(n)) + [46] + PrintNat(id) + [46] + PrintNat(serial)
            + (if creation > 0 then [44] + PrintNat(creation) else []) + [62]
  {
    assert Ascii("#Pid<") == [35, 80, 105, 100, 60];
    TwoIds(id, serial);
    var c := if creation > 0 then [44] + PrintNat(creation) else [];
    Regroup(Ascii("#Pid<"), Print(Atom(n)), [46], PrintNat(id), PrintNat(serial), c, [62]);
  }

  lemma TwoIds(id: nat, serial: nat)
    ensures PrintIds([id, serial]) == [46] + PrintNat(id) + ([46] + PrintNat(serial))
  {
    assert [id, serial][1..] == [serial] && [serial][1..] == [];
    assert PrintIds([serial]) == [46] + PrintNat(serial) + [];
  }

  lemma Regroup(p: Chars, a: Chars, d: Chars, n: Chars, m: Chars, c: Chars, e: Chars)
    ensures p + a + (d + n + (d + m)) + (c + e) == p + a + d + n + d + m + c + e
  {
  }

  /** Every id after a dot of its own. */
  function Dotted(ids: seq<nat>): Chars {
    if ids == [] then [] else Dotted(ids[..|ids| - 1]) + [46] + PrintNat(ids[|ids| - 1])
  }

  lemma {:induction false} DottedFront(ids: seq<nat>)
    requires ids != []
    ensures Dotted(ids) == [46] + PrintNat(ids[0]) + Dotted(ids[1..])
  {
    if |ids| > 1 {
      var init := ids[..|ids| - 1];
      DottedFront(init);
      assert init[1..] == ids[1..][..|ids| - 2] && ids[1..][|ids| - 2] == ids[|ids| - 1];
    }
  }

  lemma {:induction false} IdsForm(ids: seq<nat>)
    ensures PrintIds(ids) == Dotted(ids)
  {
    if ids != [] {
      IdsForm(ids[1..]);
      DottedFront(ids);
    }
  }

  lemma RefForm(n: Name, ids: seq<nat>, creation: nat)
    ensures Print(Ref(n, ids, creation)) ==
            Ascii("#Ref<") + Print(Atom(n)) + Dotted(ids)
            + (if creation > 0 then [44] + PrintNat(creation) else []) + [62]
  {
    assert Ascii("#Ref<") == [35, 82, 101, 102, 60];
    IdsForm(ids);
  }

  lemma {:induction false} ItemsForm(ts: seq<Term>)
    ensures PrintAll(ts, true) == Commas(Printed(ts))
    ensures ts != [] ==> PrintAll(ts, false) == [44] + Commas(Printed(ts))
  {
    if ts != [] {
      ItemsForm(ts[1..]);
      assert Printed(ts)[1..] == Printed(ts[1..]);
      assert Print(ts[0]) + [] == Print(ts[0]);
    }
  }

  lemma TupleForm(es: seq<Term>)
    ensures Print(Tuple(es)) == [123] + Commas(Printed(es)) + [125]
  {
    ItemsForm(es);
  }

  lemma ListForm(es: seq<Term>)
    ensures Print(List(es)) == [91] + Commas(Printed(es)) + [93]
  {
    ItemsForm(es);
  }

  // ----- characters -----

  /** `$c` is the code of the character, as a signed byte. */
  lemma CharacterReads(s: Chars, i: nat)
    requires i + 1 < |s| && s[i] == 36 && s[i + 1] != 0
    ensures ParseSimple(s, i) == Ok(Long(if s[i + 1] <= 127 then s[i + 1] else s[i + 1] as int - 256), i + 2)
  {
  }

  // ----- byte lists -----

  /** What may stand between two commas: a number, perhaps negative or without digits, in blanks. */
  datatype ByteText = ByteText(before: Chars, sign: Chars, digits: Chars, after: Chars)

  predicate Spaces(f: Chars) {
    forall k | 0 <= k < |f| :: f[k] == 32 || f[k] == 9
  }

  predicate Numeral(x: ByteText) {
    Spaces(x.before) && Spaces(x.after) && (x.sign == [] || x.sign == [45]) && Decimal(x.digits)
  }

  predicate Missing(x: ByteText) {
    x.sign == [] && x.digits == []
  }

  function RenderNumeral(x: ByteText): Chars {
    x.before + (x.sign + x.digits) + x.after
  }

  function RenderAll(xs: seq<ByteText>): seq<Chars> {
    seq(|xs|, i requires 0 <= i < |xs| => RenderNumeral(xs[i]))
  }

  /** An `int` of 32 bits. */
  function Wrapped(v: int): int {
    (v + 2147483648) % 4294967296 - 2147483648
  }

  /** What a numeral counts; without digits it counts 0. */
  function NumeralValue(x: ByteText): int
    requires Numeral(x)
  {
    Wrapped(if x.sign == [45] then -(Place(x.digits) as int) else Place(x.digits))
  }

  lemma WrapTwice(x: int, d: int)
    ensures Wrap32(Wrapped(x) * 10 + d) == Wrapped(x * 10 + d)
  {
    var q := (x + 2147483648) / 4294967296;
    assert Wrapped(x) == x - q * 4294967296;
    assert Wrapped(x) * 10 + d == (x * 10 + d) + (-10 * q) * 4294967296;
    ModShift(x * 10 + d + 2147483648, -10 * q);
  }

  lemma WrapNegative(x: int)
    ensures Wrap32(-Wrapped(x)) == Wrapped(-x)
  {
    var q := (x + 2147483648) / 4294967296;
    assert -Wrapped(x) == -x + q * 4294967296;
    ModShift(-x + 2147483648, q);
  }

  lemma ModShift(a: int, k: int)
    ensures (a + k * 4294967296) % 4294967296 == a % 4294967296
  {
  }

  /** The digit loop computes the number, wrapped to an `int`. */
  lemma {:induction false} AtoiRun(s: Chars, p: nat, end: nat, w: Chars)
    requires Decimal(w) && Matches(s, p, w) && p + |w| <= end < |s| && !IsDigit(s[end])
    ensures AtoiDigits(s, p, end, 0) == AtoiDigits(s, p + |w|, end, Wrapped(Place(w)))
    decreases |w|
  {
    if w != [] {
      var n := |w| - 1;
      assert w == w[..n] + [w[n]];
      MatchesParts(s, p, w[..n], [w[n]]);
      AtoiRun(s, p, end, w[..n]);
      assert s[p + n] == w[n];
      WrapTwice(Place(w[..n]), w[n] as int - 48);
    }
  }

  lemma {:induction false} SpacesSkipped(s: Chars, p: nat, f: Chars)
    requires Spaces(f) && Matches(s, p, f) && p + |f| < |s| && s[p + |f|] != 32 && s[p + |f|] != 9
    ensures SkipBlanks(s, p) == p + |f|
    decreases |f|
  {
    if f != [] {
      MatchesAt(s, p, f, 0);
      assert f == [f[0]] + f[1..];
      MatchesParts(s, p, [f[0]], f[1..]);
      SpacesSkipped(s, p + 1, f[1..]);
    }
  }

  /** What cannot belong to a numeral that ends in front of it. */
  predicate Ends(c: Byte) {
    !(48 <= c <= 57) && c != 32 && c != 9 && c != 45
  }

  /** A numeral up to `q`, in a list that ends at `end`. */
  predicate NumeralHere(s: Chars, p: nat, end: nat, x: ByteText, q: nat) {
    && Numeral(x) && Matches(s, p, RenderNumeral(x)) && q == p + |RenderNumeral(x)| <= end < |s|
    && s[end] == 62 && Ends(s[q])
  }

  lemma SignedRun(s: Chars, k: nat, end: nat, x: ByteText)
    requires Numeral(x) && Matches(s, k, x.sign + x.digits) && k + |x.sign| + |x.digits| <= end < |s| && k < end
    requires s[end] == 62 && !IsDigit(s[k + |x.sign| + |x.digits|]) && (Missing(x) ==> s[k] != 45)
    ensures FastAtoi(s, k, end) == (NumeralValue(x), k + |x.sign| + |x.digits|)
  {
    MatchesParts(s, k, x.sign, x.digits);
    AtoiRun(s, k + |x.sign|, end, x.digits);
    WrapNegative(Place(x.digits));
    if x.sign != [] { MatchesAt(s, k, x.sign, 0); } else if x.digits != [] { MatchesAt(s, k, x.digits, 0); }
  }

  lemma NumeralReads(s: Chars, p: nat, end: nat, x: ByteText, q: nat)
    requires NumeralHere(s, p, end, x, q) && !Missing(x)
    ensures var k := p + |x.before|;
      && SkipBlanks(s, p) == k < end && FastAtoi(s, k, end) == (NumeralValue(x), k + |x.sign| + |x.digits|)
      && SkipBlanks(s, k + |x.sign| + |x.digits|) == q
  {
    var k := p + |x.before|;
    var k' := k + |x.sign| + |x.digits|;
    ThreeParts(s, p, x.before, x.sign + x.digits, x.after);
    MatchesAt(s, k, x.sign + x.digits, 0);
    SpacesSkipped(s, p, x.before);
    if x.after != [] { MatchesAt(s, k', x.after, 0); }
    SignedRun(s, k, end, x);
    SpacesSkipped(s, k', x.after);
  }

  lemma NothingReads(s: Chars, p: nat, end: nat, x: ByteText, q: nat)
    requires NumeralHere(s, p, end, x, q) && Missing(x)
    ensures SkipBlanks(s, p) == q == SkipBlanks(s, q)
    ensures q < end ==> FastAtoi(s, q, end) == (0, q)
  {
    assert RenderNumeral(x) == x.before + x.after;
    SpacesSkipped(s, p, x.before + x.after);
    SpacesSkipped(s, q, []);
  }

  /**
   * One entry of the list: a byte is collected, any other number is an error, and so is
   * anything but a comma behind it. Nothing at all is 0, except at the end of the list,
   * where it is nothing if there is no blank either.
   */
  lemma NumeralTaken(s: Chars, p: nat, end: nat, x: ByteText, q: nat, acc: seq<Byte>)
    requires NumeralHere(s, p, end, x, q)
    ensures var v := NumeralValue(x);
      ParseBytes(s, p, end, acc) ==
      if q == end && Missing(x) then (if p == end then Ok(acc, end + 2) else Err(BadBinary))
      else if v < 0 || 255 < v then Err(BadByteValue)
      else if s[q] == 44 then ParseBytes(s, q + 1, end, acc + [v])
      else if q < end then Err(BadByteDelimiter)
      else Ok(acc + [v], end + 2)
  {
    if Missing(x) { NothingReads(s, p, end, x, q); } else { NumeralReads(s, p, end, x, q); }
  }

  predicate AllBytes(xs: seq<ByteText>) {
    forall k | 0 <= k < |xs| :: Numeral(xs[k]) && 0 <= NumeralValue(xs[k]) <= 255
  }

  /** The last entry has a digit or a sign. */
  predicate Finished(xs: seq<ByteText>) {
    xs != [] ==> !Missing(xs[|xs| - 1])
  }

  function Values(xs: seq<ByteText>): (r: seq<Byte>)
    requires AllBytes(xs)
    ensures |r| == |xs|
  {
    seq(|xs|, i requires 0 <= i < |xs| => NumeralValue(xs[i]))
  }

  lemma FirstNumeral(s: Chars, p: nat, end: nat, xs: seq<ByteText>, q: nat)
    requires xs != [] && Numeral(xs[0]) && q == p + |RenderNumeral(xs[0])|
    requires Matches(s, p, Commas(RenderAll(xs))) && end == p + |Commas(RenderAll(xs))| < |s| && s[end] == 62
    ensures NumeralHere(s, p, end, xs[0], q)
    ensures |xs| == 1 ==> q == end
    ensures |xs| > 1 ==>
      && q < end && s[q] == 44
      && Matches(s, q + 1, Commas(RenderAll(xs[1..]))) && end == q + 1 + |Commas(RenderAll(xs[1..]))|
  {
    var ws := RenderAll(xs);
    assert ws[0] == RenderNumeral(xs[0]);
    if |xs| > 1 {
      assert ws[1..] == RenderAll(xs[1..]);
      CommaParts(s, p, ws[0], Commas(ws[1..]));
    }
  }

  lemma {:induction false} NumeralsRead(s: Chars, p: nat, end: nat, xs: seq<ByteText>, acc: seq<Byte>, v: seq<Byte>)
    requires AllBytes(xs) && Finished(xs) && v == acc + Values(xs)
    requires Matches(s, p, Commas(RenderAll(xs))) && end == p + |Commas(RenderAll(xs))| < |s| && s[end] == 62
    ensures ParseBytes(s, p, end, acc) == Ok(v, end + 2)
    decreases |xs|
  {
    if xs == [] {
      assert v == acc;
    } else {
      var q := p + |RenderNumeral(xs[0])|;
      var mid := acc + [Values(xs)[0]];
      FirstNumeral(s, p, end, xs, q);
      NumeralTaken(s, p, end, xs[0], q, acc);
      assert Values(xs)[1..] == Values(xs[1..]);
      OneMore(acc, Values(xs));
      if |xs| == 1 {
        assert v == mid;
      } else {
        NumeralsRead(s, q + 1, end, xs[1..], mid, v);
      }
    }
  }

  lemma NumeralHasNoBracket(x: ByteText)
    requires Numeral(x)
    ensures forall c | c in RenderNumeral(x) :: c != 62 && c != 0 && c != 34
  {
  }

  lemma {:induction false} NumeralsHaveNoBracket(xs: seq<ByteText>)
    requires forall k | 0 <= k < |xs| :: Numeral(xs[k])
    ensures forall c | c in Commas(RenderAll(xs)) :: c != 62 && c != 0 && c != 34
    decreases |xs|
  {
    if xs != [] {
      NumeralHasNoBracket(xs[0]);
      assert RenderAll(xs)[0] == RenderNumeral(xs[0]);
      if |xs| > 1 {
        assert RenderAll(xs)[1..] == RenderAll(xs[1..]);
        NumeralsHaveNoBracket(xs[1..]);
      }
    }
  }

  lemma ByteListFrame(s: Chars, i: nat, w: Chars, e: nat)
    requires Matches(s, i, [60, 60] + w + [62, 62]) && e == i + 2 + |w|
    requires forall c | c in w :: c != 62 && c != 0 && c != 34
    ensures e + 1 < |s| && s[i] == 60 && s[i + 1] == 60 && s[i + 2] != 34 && s[e] == 62
    ensures Matches(s, i + 2, w) && FindText(s, i + 2, CLOSE_BYTES) == Some(e)
  {
    ThreeParts(s, i, [60, 60], w, [62, 62]);
    MatchesPair(s, i, 60, 60);
    MatchesPair(s, e, 62, 62);
    forall k | i + 2 <= k < e ensures s[k] != 62 && s[k] != 0 && s[k] != 34 {
      MatchesAt(s, i + 2, w, k - i - 2);
      assert s[k] in w;
    }
    BracketFound(s, i + 2, e);
  }

  /** A list of bytes is read with blanks around the numbers, leading zeros, and gaps for 0. */
  lemma ByteListReads(s: Chars, i: nat, xs: seq<ByteText>)
    requires AllBytes(xs) && Finished(xs) && Matches(s, i, [60, 60] + Commas(RenderAll(xs)) + [62, 62])
    ensures ParseSimple(s, i) == Ok(Binary(Values(xs)), i + |Commas(RenderAll(xs))| + 4)
  {
    var w := Commas(RenderAll(xs));
    var e := i + 2 + |w|;
    NumeralsHaveNoBracket(xs);
    ByteListFrame(s, i, w, e);
    assert [] + Values(xs) == Values(xs);
    NumeralsRead(s, i + 2, e, xs, [], Values(xs));
    ParseByteBinary(s, i, Values(xs), e);
  }

  /** A number that is not a byte is refused, wherever it stands in the list. */
  lemma ByteListRefuses(s: Chars, i: nat, xs: seq<ByteText>, k: nat)
    requires k < |xs| && AllBytes(xs[..k]) && (forall j | 0 <= j < |xs| :: Numeral(xs[j]))
    requires !(0 <= NumeralValue(xs[k]) <= 255)
    requires Matches(s, i, [60, 60] + Commas(RenderAll(xs)) + [62, 62])
    ensures ParseSimple(s, i) == Err(BadByteValue)
  {
    var w := Commas(RenderAll(xs));
    var e := i + 2 + |w|;
    NumeralsHaveNoBracket(xs);
    ByteListFrame(s, i, w, e);
    NumeralsRefuse(s, i + 2, e, xs, k, []);
  }

  lemma {:induction false} NumeralsRefuse(s: Chars, p: nat, end: nat, xs: seq<ByteText>, k: nat, acc: seq<Byte>)
    requires k < |xs| && AllBytes(xs[..k]) && (forall j | 0 <= j < |xs| :: Numeral(xs[j]))
    requires !(0 <= NumeralValue(xs[k]) <= 255)
    requires Matches(s, p, Commas(RenderAll(xs))) && end == p + |Commas(RenderAll(xs))| < |s| && s[end] == 62
    ensures ParseBytes(s, p, end, acc) == Err(BadByteValue)
    decreases k
  {
    var q := p + |RenderNumeral(xs[0])|;
    FirstNumeral(s, p, end, xs, q);
    NumeralTaken(s, p, end, xs[0], q, acc);
    if k > 0 {
      assert xs[..k][0] == xs[0];
      assert xs[1..][..k - 1] == xs[..k][1..];
      NumeralsRefuse(s, q + 1, end, xs[1..], k - 1, acc + [NumeralValue(xs[0])]);
    }
  }

  // ----- integers as strtol reads them -----

  predicate Space(c: Byte) {
    c == 32 || 9 <= c <= 13
  }

  /** The value of a digit: 0 to 9, then letters of either case from 10; 36 for all else. */
  function DigitOf(c: Byte): nat {
    if 48 <= c <= 57 then c as int - 48
    else if 97 <= c <= 122 then c as int - 87
    else if 65 <= c <= 90 then c as int - 55
    else 36
  }

  predicate DigitsIn(w: Chars, base: nat) {
    forall k | 0 <= k < |w| :: DigitOf(w[k]) < base
  }

  /** The value of a digit sequence by position: the last digit counts once. */
  function ValueIn(w: Chars, base: nat): nat {
    if w == [] then 0 else ValueIn(w[..|w| - 1], base) * base + DigitOf(w[|w| - 1])
  }

  /** Cut to 64 bits. */
  function Saturated(v: int): int {
    if v > 9223372036854775807 then 9223372036854775807
    else if v < -9223372036854775808 then -9223372036854775808
    else v
  }

  lemma {:induction false} DigitsAre(s: Chars, j: nat, w: Chars, base: nat)
    requires DigitsIn(w, base) && Matches(s, j, w)
    ensures Digits(s, j, base, 0) == Digits(s, j + |w|, base, ValueIn(w, base))
    decreases |w|
  {
    if w != [] {
      var n := |w| - 1;
      assert w == w[..n] + [w[n]];
      MatchesParts(s, j, w[..n], [w[n]]);
      DigitsAre(s, j, w[..n], base);
      assert s[j + n] == w[n];
    }
  }

  lemma {:induction false} SpacesAre(s: Chars, i: nat, f: Chars)
    requires (forall k | 0 <= k < |f| :: Space(f[k])) && Matches(s, i, f) && !Space(CharAt(s, i + |f|))
    ensures SkipSpaces(s, i) == i + |f|
    decreases |f|
  {
    if f != [] {
      MatchesAt(s, i, f, 0);
      assert f == [f[0]] + f[1..];
      MatchesParts(s, i, [f[0]], f[1..]);
      SpacesAre(s, i + 1, f[1..]);
    }
  }

  /** What stands in front of the digits, if anything. */
  predicate Sign(sign: Chars) {
    sign == [] || sign == [45] || sign == [43]
  }

  lemma IntegerParts(s: Chars, i: nat, sign: Chars, j: nat, w: Chars, base: nat)
    requires 2 <= base <= 36 && Sign(sign) && i <= |s| && SkipSpaces(s, i) + |sign| == j
    requires Matches(s, SkipSpaces(s, i), sign) && Matches(s, j, w)
    requires w != [] && DigitsIn(w, base) && DigitOf(CharAt(s, j + |w|)) >= base
    requires !(base == 16 && w == [48] && CharAt(s, j + 1) in {120, 88})
    ensures StrToL(s, i, base) == Saturated(if sign == [45] then -(ValueIn(w, base) as int) else ValueIn(w, base))
  {
    MatchesAt(s, j, w, 0);
    if sign != [] { MatchesAt(s, j - 1, sign, 0); }
    DigitsAre(s, j, w, base);
    if base == 16 && |w| > 1 { MatchesAt(s, j, w, 1); }
  }

  /**
   * `strtol` in base 2 to 36: spaces, a sign, in base 16 perhaps `0x`, then the digits of
   * that base, as far as they go.
   */
  lemma IntegerIs(s: Chars, i: nat, f: Chars, sign: Chars, w: Chars, base: nat)
    requires 2 <= base <= 36 && (forall k | 0 <= k < |f| :: Space(f[k])) && Sign(sign)
    requires w != [] && DigitsIn(w, base) && DigitOf(CharAt(s, i + |f| + |sign| + |w|)) >= base
    requires Matches(s, i, f + sign + w)
    requires !(base == 16 && w == [48] && CharAt(s, i + |f| + |sign| + 1) in {120, 88})
    ensures StrToL(s, i, base) == Saturated(if sign == [45] then -(ValueIn(w, base) as int) else ValueIn(w, base))
  {
    var j := i + |f|;
    ThreeParts(s, i, f, sign, w);
    SpacesStop(s, i, f, sign, w);
    IntegerParts(s, i, sign, j + |sign|, w, base);
  }

  /** No space stands where the number starts. */
  lemma SpacesStop(s: Chars, i: nat, f: Chars, sign: Chars, w: Chars)
    requires (forall k | 0 <= k < |f| :: Space(f[k])) && Sign(sign) && w != [] && DigitsIn(w, 36)
    requires Matches(s, i, f) && Matches(s, i + |f|, sign) && Matches(s, i + |f| + |sign|, w)
    ensures SkipSpaces(s, i) == i + |f|
  {
    MatchesAt(s, i + |f| + |sign|, w, 0);
    if sign != [] { MatchesAt(s, i + |f|, sign, 0); }
    SpacesAre(s, i, f);
  }

  /** In base 16 the digits may follow `0x`. */
  lemma HexadecimalIs(s: Chars, i: nat, f: Chars, sign: Chars, x: Byte, w: Chars)
    requires (forall k | 0 <= k < |f| :: Space(f[k])) && Sign(sign) && x in {120, 88}
    requires DigitsIn(w, 16) && DigitOf(CharAt(s, i + |f| + |sign| + 2 + |w|)) >= 16
    requires Matches(s, i, f + sign + [48, x] + w)
    ensures StrToL(s, i, 16) == Saturated(if sign == [45] then -(ValueIn(w, 16) as int) else ValueIn(w, 16))
  {
    var k := i + |f| + |sign|;
    FourParts(s, i, f, sign, [48, x], w);
    SpacesStop(s, i, f, sign, [48, x]);
    HexadecimalParts(s, i, sign, k, x, w);
  }

  lemma HexadecimalParts(s: Chars, i: nat, sign: Chars, k: nat, x: Byte, w: Chars)
    requires Sign(sign) && x in {120, 88} && i <= |s| && SkipSpaces(s, i) + |sign| == k
    requires Matches(s, SkipSpaces(s, i), sign) && Matches(s, k, [48, x]) && Matches(s, k + 2, w)
    requires DigitsIn(w, 16) && DigitOf(CharAt(s, k + 2 + |w|)) >= 16
    ensures StrToL(s, i, 16) == Saturated(if sign == [45] then -(ValueIn(w, 16) as int) else ValueIn(w, 16))
  {
    MatchesPair(s, k, 48, x);
    if sign != [] { MatchesAt(s, k - 1, sign, 0); }
    DigitsAre(s, k + 2, w, 16);
  }

  /** A base that `strtol` does not know gives 0. */
  lemma OtherBases(s: Chars, i: nat, base: int)
    requires i <= |s| && (base < 0 || base == 1 || base > 36)
    ensures StrToL(s, i, base) == 0
  {
  }

  /** In base 0 the text says which base it is: `0x` sixteen, `0` eight, and else ten. */
  lemma BaseZeroIs(s: Chars, i: nat, f: Chars, sign: Chars)
    requires (forall k | 0 <= k < |f| :: Space(f[k])) && Sign(sign) && Matches(s, i, f + sign)
    requires var c := CharAt(s, i + |f| + |sign|); sign == [] ==> !Space(c) && c != 43 && c != 45
    ensures var k := i + |f| + |sign|;
      var base := if CharAt(s, k) != 48 then 10 else if CharAt(s, k + 1) in {120, 88} then 16 else 8;
      StrToL(s, i, 0) == StrToL(s, i, base)
  {
    MatchesParts(s, i, f, sign);
    if sign != [] { MatchesAt(s, i + |f|, sign, 0); }
    SpacesAre(s, i, f);
  }

  /** A decimal point makes the number a double, which is not modelled. */
  lemma PointIsDouble(s: Chars, i: nat, sign: Chars, w: Chars)
    requires (sign == [] || sign == [45]) && w != [] && Decimal(w) && Matches(s, i, sign + w + [46])
    ensures i < |s| && (48 <= s[i] <= 57 || s[i] == 45) && ParseNumber(s, i) == Err(DoubleLiteral)
  {
    ThreeParts(s, i, sign, w, [46]);
    MatchesAt(s, i + |sign| + |w|, [46], 0);
    MatchesAt(s, i + |sign|, w, 0);
    var n := Number(i + 1, i, 10, false);
    if sign == [] {
      assert w == [w[0]] + w[1..];
      MatchesParts(s, i, [w[0]], w[1..]);
      assert forall k | 0 <= k < |w[1..]| :: w[1..][k] == w[k + 1];
      PointScanned(s, n, w[1..]);
    } else {
      MatchesAt(s, i, sign, 0);
      PointScanned(s, n, w);
    }
  }

  lemma {:induction false} PointScanned(s: Chars, n: Number, w: Chars)
    requires n.start <= n.p && !n.dot && Decimal(w) && Matches(s, n.p, w) && CharAt(s, n.p + |w|) == 46
    ensures n.p <= |s| && ScanNumber(s, n).dot
    decreases |w|
  {
    if w == [] {
      PointStays(s, n.(p := n.p + 1, dot := true));
    } else {
      MatchesAt(s, n.p, w, 0);
      assert forall k | 0 <= k < |w[1..]| :: w[1..][k] == w[k + 1] == s[n.p + 1 + k];
      PointScanned(s, n.(p := n.p + 1), w[1..]);
    }
  }

  lemma {:induction false} PointStays(s: Chars, n: Number)
    requires n.start <= n.p <= |s| && n.dot
    ensures ScanNumber(s, n).dot
    decreases |s| - n.p
  {
    var c := CharAt(s, n.p);
    if IsDigit(c) {
      PointStays(s, n.(p := n.p + 1));
    } else if c == 35 {
      PointStays(s, Number(n.p + 1, n.p + 1, Wrap32(StrToL(s, n.start, 10)), n.dot));
    }
  }

  /** Any decimal number, however long, is read to its end. */
  lemma DecimalReads(s: Chars, i: nat, sign: Chars, w: Chars)
    requires (sign == [] || sign == [45]) && w != [] && Decimal(w)
    requires Matches(s, i, sign + w) && Delimiter(CharAt(s, i + |sign| + |w|))
    ensures i < |s| && (48 <= s[i] <= 57 || s[i] == 45)
    ensures ParseNumber(s, i) == Ok(Long(SignedPlace(sign, w)), i + |sign| + |w|)
  {
    MatchesParts(s, i, sign, w);
    DecimalParts(s, i, sign, w, i + |sign|);
  }

  /** The value of a decimal number with its sign, cut to 64 bits. */
  function SignedPlace(sign: Chars, w: Chars): int
    requires Decimal(w)
  {
    Saturated(if sign == [45] then -(Place(w) as int) else Place(w))
  }

  lemma DecimalParts(s: Chars, i: nat, sign: Chars, w: Chars, j: nat)
    requires (sign == [] || sign == [45]) && w != [] && Decimal(w) && j == i + |sign|
    requires Matches(s, i, sign) && Matches(s, j, w) && Delimiter(CharAt(s, j + |w|))
    ensures i < |s| && (48 <= s[i] <= 57 || s[i] == 45)
    ensures ParseNumber(s, i) == Ok(Long(SignedPlace(sign, w)), j + |w|)
  {
    PlaceIsValue(w);
    SpacesStop(s, i, [], sign, w);
    IntegerParts(s, i, sign, j, w, 10);
    DecimalScan(s, i, sign, w);
    MatchesAt(s, j, w, 0);
    if sign != [] { MatchesAt(s, i, sign, 0); }
  }

  lemma DecimalScan(s: Chars, i: nat, sign: Chars, w: Chars)
    requires (sign == [] || sign == [45]) && w != [] && Decimal(w)
    requires Matches(s, i, sign) && Matches(s, i + |sign|, w) && Delimiter(CharAt(s, i + |sign| + |w|))
    ensures ScanNumber(s, Number(i + 1, i, 10, false)) == Number(i + |sign| + |w|, i, 10, false)
  {
    if sign == [] {
      MatchesAt(s, i, w, 0);
      assert w == [w[0]] + w[1..];
      MatchesParts(s, i, [w[0]], w[1..]);
      assert forall k | 0 <= k < |w[1..]| :: w[1..][k] == w[k + 1];
      ScanDigits(s, Number(i + 1, i, 10, false), w[1..]);
    } else {
      ScanDigits(s, Number(i + 1, i, 10, false), w);
    }
  }

  lemma {:induction false} PlaceIsValue(w: Chars)
    requires Decimal(w)
    ensures Place(w) == ValueIn(w, 10) && DigitsIn(w, 10)
  {
    if w != [] { PlaceIsValue(w[..|w| - 1]); }
  }

  // ----- quoted text -----

  /** A quote at `j` that no backslash precedes, before any NUL. */
  predicate Closes(s: Chars, i: nat, j: nat, q: Byte) {
    i < j < |s| && s[j] == q && s[j - 1] != 92 && forall k | i < k < j :: s[k] != 0
  }

  lemma {:induction false} ScanIs(s: Chars, i: nat, p: nat, q: Byte)
    requires i < p <= |s| && q != 0 && (forall k | i < k < p :: s[k] != 0 && !Closes(s, i, k, q))
    ensures var j := ScanQuoted(s, p, q);
      && (CharAt(s, j) == q ==> Closes(s, i, j, q) && forall k | i < k < j :: !Closes(s, i, k, q))
      && (CharAt(s, j) != q ==> forall k | i < k < |s| :: !Closes(s, i, k, q))
    decreases |s| - p
  {
    if p < |s| && s[p] != 0 && !(s[p] == q && s[p - 1] != 92) {
      ScanIs(s, i, p + 1, q);
    }
  }

  /** Quoted text ends at the first quote that closes it; if there is none, it is an error. */
  lemma QuotedIs(s: Chars, i: nat, q: Byte, failure: Failure)
    requires i < |s| && q != 0
    ensures match ParseQuoted(s, i, q, failure)
      case Ok(w, e) => Closes(s, i, e - 1, q) && w == s[i + 1..e - 1] && forall k | i < k < e - 1 :: !Closes(s, i, k, q)
      case Err(f) => f == failure && forall k | i < k < |s| :: !Closes(s, i, k, q)
  {
    ScanIs(s, i, i + 1, q);
  }

  /** A text in double quotes is a string, one in single quotes an atom, unless it is too long. */
  lemma QuotesDecide(s: Chars, i: nat)
    requires i < |s|
    ensures s[i] == 34 ==>
      var r := ParseQuoted(s, i, 34, UnclosedString);
      ParseSimple(s, i) == if r.Ok? then Ok(Str(r.value), r.pos) else Err(UnclosedString)
    ensures s[i] == 39 ==>
      var r := ParseQuoted(s, i, 39, UnclosedAtom);
      ParseSimple(s, i) ==
      if r.Err? then Err(UnclosedAtom)
      else if |r.value| <= 1021 && Utf8Length(r.value) <= 255 then Ok(Atom(r.value), r.pos) else Err(NameTooLong)
  {
    QuotedIs(s, i, 34, UnclosedString);
    QuotedIs(s, i, 39, UnclosedAtom);
  }

  // ----- text in a binary -----

  /** `w` stands at `e`, and no NUL before it. */
  predicate FoundAt(s: Chars, i: nat, e: nat, w: Chars) {
    i <= e && Matches(s, e, w) && forall k | i <= k < e && k < |s| :: s[k] != 0
  }

  ghost predicate NotFound(s: Chars, i: nat, w: Chars) {
    forall e: nat :: !FoundAt(s, i, e, w)
  }

  lemma {:induction false} FindIs(s: Chars, i: nat, w: Chars)
    requires i <= |s| && w != []
    ensures match FindText(s, i, w)
      case Some(e) => FoundAt(s, i, e, w) && forall k: nat | i <= k < e :: !Matches(s, k, w)
      case None => NotFound(s, i, w)
    decreases |s| - i
  {
    if !Matches(s, i, w) && i < |s| && s[i] != 0 {
      FindIs(s, i + 1, w);
      if NotFound(s, i + 1, w) {
        forall e: nat ensures !FoundAt(s, i, e, w) {
          assert !FoundAt(s, i + 1, e, w);
        }
      }
    }
  }

  /** `<<"` starts a binary up to the first `">>`, or fails if there is none. */
  lemma TextBinaryIs(s: Chars, i: nat)
    requires i + 2 < |s| && s[i] == 60 && s[i + 1] == 60 && s[i + 2] == 34
    ensures match FindText(s, i + 3, [34, 62, 62])
      case Some(e) => ParseSimple(s, i) == Ok(Binary(s[i + 3..e]), e + 3)
      case None => ParseSimple(s, i) == Err(UnclosedBinary)
  {
    ParseTextBinary(s, i);
    assert CLOSE_TEXT == [34, 62, 62];
    FindIs(s, i + 3, [34, 62, 62]);
  }

  /** `<<` without a closing bracket fails, and so does a single `<`. */
  lemma BinaryNeedsBrackets(s: Chars, i: nat)
    requires i < |s| && s[i] == 60
    ensures CharAt(s, i + 1) != 60 ==> ParseSimple(s, i) == Err(BadBinary)
    ensures CharAt(s, i + 1) == 60 && CharAt(s, i + 2) != 34 && NotFound(s, i + 2, [62, 62]) ==>
      ParseSimple(s, i) == Err(UnclosedBinary)
  {
    assert CLOSE_BYTES == [62, 62];
    if CharAt(s, i + 1) == 60 { FindIs(s, i + 2, [62, 62]); }
  }

  // ----- bare words -----

  predicate AtomChar(c: Byte) {
    65 <= c <= 90 || 97 <= c <= 122 || 48 <= c <= 57 || c == 95 || c == 64
  }

  /** A small letter starts an atom of letters, digits, `_` and `@`, as long as there are any. */
  lemma BareAtomIs(s: Chars, i: nat, n: Name)
    requires n != [] && 97 <= n[0] <= 122 && (forall k | 0 <= k < |n| :: AtomChar(n[k]))
    requires Matches(s, i, n) && !AtomChar(CharAt(s, i + |n|))
    ensures ParseAtom(s, i) == if |n| <= 1021 && Utf8Length(n) <= 255 then Ok(Atom(n), i + |n|) else Err(NameTooLong)
  {
    MatchesAt(s, i, n, 0);
    assert Skip(s, i, false) == i;
    SpanRun(s, i, n, AtomChars);
    MatchesSlice(s, i, n);
  }

  predicate VarChar(c: Byte) {
    65 <= c <= 90 || 97 <= c <= 122 || 48 <= c <= 57 || c == 95
  }

  /** A capital letter or `_` starts a variable of letters, digits and `_`. */
  lemma BareVariableIs(s: Chars, i: nat, n: Name)
    requires n != [] && (65 <= n[0] <= 90 || n[0] == 95) && (forall k | 0 <= k < |n| :: VarChar(n[k]))
    requires Matches(s, i, n) && !VarChar(CharAt(s, i + |n|))
    requires !(CharAt(s, i + |n|) == 58 && CharAt(s, i + |n| + 1) == 58)
    ensures ParseVariable(s, i) ==
            if |n| <= 1021 && Utf8Length(n) <= 255 then Ok(Var(n, UndefinedT), i + |n|) else Err(NameTooLong)
  {
    VariableRun(s, i, n, i + |n|);
    VariableWord(s, i, i + |n|, n);
  }

  lemma VariableRun(s: Chars, i: nat, n: Name, e: nat)
    requires n != [] && (forall k | 0 <= k < |n| :: VarChar(n[k])) && e == i + |n|
    requires Matches(s, i, n) && !VarChar(CharAt(s, e))
    ensures i <= |s| && Span(s, i, VarChars) == e && s[i..e] == n
  {
    SpanRun(s, i, n, VarChars);
    MatchesSlice(s, i, n);
  }

  lemma VariableWord(s: Chars, i: nat, e: nat, n: Name)
    requires i <= |s| && Span(s, i, VarChars) == e && s[i..e] == n && !(CharAt(s, e) == 58 && CharAt(s, e + 1) == 58)
    ensures ParseVariable(s, i) ==
            if |n| <= 1021 && Utf8Length(n) <= 255 then Ok(Var(n, UndefinedT), e) else Err(NameTooLong)
  {
  }

  /** The first character decides which parser goes on. */
  lemma StartDecides(s: Chars, i: nat)
    requires i < |s|
    ensures 97 <= s[i] <= 122 ==> ParseSimple(s, i) == ParseAtom(s, i)
    ensures 65 <= s[i] <= 90 || s[i] == 95 ==> ParseSimple(s, i) == ParseVariable(s, i)
    ensures 48 <= s[i] <= 57 || s[i] == 45 ==> ParseSimple(s, i) == ParseNumber(s, i)
    ensures s[i] == 60 ==> ParseSimple(s, i) == ParseBinary(s, i + 1)
  {
  }

  /** What no term starts with, and what is not modelled. */
  lemma OtherStarts(s: Chars, i: nat)
    ensures var c := CharAt(s, i);
      !(65 <= c <= 90 || 97 <= c <= 122 || 48 <= c <= 57 || c in {95, 45, 34, 39, 60, 36, 126})
      ==> ParseSimple(s, i) == Err(InvalidTerm)
    ensures CharAt(s, i) == 126 ==> ParseSimple(s, i) == Err(Directive)
    ensures CharAt(s, i) == 36 && CharAt(s, i + 1) == 0 ==> ParseSimple(s, i) == Err(PastEnd)
  {
  }

  // ----- separators -----

  predicate Blank(c: Byte) {
    c == 32 || c == 9 || c == 10 || c == 13
  }

  /** Blanks, and a comment from `%` to the end of its line, are passed over. */
  lemma SkipIs(s: Chars, i: nat)
    requires i < |s| && s[i] != 0
    ensures Blank(s[i]) ==> Skip(s, i, false) == Skip(s, i + 1, false)
    ensures s[i] == 37 ==> Skip(s, i, false) == Skip(s, i + 1, true)
    ensures !Blank(s[i]) && s[i] != 37 ==> Skip(s, i, false) == i
    ensures Skip(s, i, true) == Skip(s, i + 1, s[i] != 10)
  {
  }

  /** Between the items of a tuple or list any number of commas will do, and none. */
  lemma SeparatorsAre(s: Chars, simple: SimpleParser, i: nat, isTuple: bool, acc: seq<Term>)
    requires i < |s| && Advances(s, simple)
    requires !Blank(s[i]) && s[i] != 37 && s[i] != 0
    ensures var (close, c) := (if isTuple then 125 else 93, s[i]);
      var r := ItemsAt(s, simple, i, close, acc);
      && (c == close ==> r == Ok(acc, i + 1))
      && (c == 44 ==> r == ItemsAt(s, simple, i + 1, close, acc))
      && (c == 124 && !isTuple ==> r == TailAt(s, simple, i + 1, acc))
      && (c != close && c != 44 && (c != 124 || isTuple) ==>
            var t := TermAt(s, simple, i);
            if t.Ok? then r == ItemsAt(s, simple, t.pos, close, acc + [t.value]) else r == Err(t.failure))
  {
    assert Skip(s, i, false) == i;
  }

  /** Brackets decide what a term is. */
  lemma BracketsAre(s: Chars, simple: SimpleParser, i: nat)
    requires i < |s| && Advances(s, simple)
    requires !Blank(s[i]) && s[i] != 37 && s[i] != 0
    ensures s[i] == 123 ==>
      var r := ItemsAt(s, simple, i + 1, 125, []);
      TermAt(s, simple, i) == if r.Ok? then Ok(Tuple(r.value), r.pos) else Err(r.failure)
    ensures s[i] == 91 && CharAt(s, i + 1) == 93 ==> TermAt(s, simple, i) == Ok(List([]), i + 2)
    ensures s[i] == 91 && CharAt(s, i + 1) != 93 ==>
      var r := ItemsAt(s, simple, i + 1, 93, []);
      TermAt(s, simple, i) == if r.Ok? then Ok(List(r.value), r.pos) else Err(r.failure)
    ensures s[i] != 123 && s[i] != 91 ==> TermAt(s, simple, i) == simple(i)
  {
    assert Skip(s, i, false) == i;
  }

  /** A tail is one variable, and only a bracket may follow it. */
  lemma TailIs(s: Chars, simple: SimpleParser, i: nat, acc: seq<Term>)
    requires i < |s| && Advances(s, simple)
    requires !Blank(s[i]) && s[i] != 37 && s[i] != 0
    ensures var r := TailAt(s, simple, i, acc);
      if !(65 <= s[i] <= 90 || s[i] == 95) then r == Err(BadList)
      else if simple(i).Err? then r == Err(simple(i).failure)
      else
        var e := Skip(s, simple(i).pos, false);
        r == if e < |s| && s[e] == 93 then Ok(acc + [simple(i).value], e) else Err(BadList)
  {
    assert Skip(s, i, false) == i;
  }
}
