/**
 * The wire format in literal bytes: every form in which a peer may send a term (chapter
 * "External Term Format" of the ERTS User's Guide), what decoding makes of it, and the form
 * that encoding chooses.
 */
module Wire {
  import opened Codec
  import opened CodecRoundTrip
  import opened Slices
  import opened Terms

  // ----- big-endian numbers -----

  function B2(n: nat): (r: Bytes)
    requires n < 65536
    ensures |r| == 2
  {
    [n / 256, n % 256]
  }

  function B4(n: nat): (r: Bytes)
    requires n < 4294967296
    ensures |r| == 4
  {
    [n / 16777216, n / 65536 % 256, n / 256 % 256, n % 256]
  }

  lemma By256(n: nat, q: nat, r: nat)
    requires n == q * 256 + r && r < 256
    ensures n / 256 == q && n % 256 == r
  {
  }

  lemma By65536(n: nat, q: nat, r: nat)
    requires n == q * 65536 + r && r < 65536
    ensures n / 65536 == q && n % 65536 == r
  {
  }

  lemma By16777216(n: nat, q: nat, r: nat)
    requires n == q * 16777216 + r && r < 16777216
    ensures n / 16777216 == q && n % 16777216 == r
  {
  }

  lemma FourDigits(n: nat, a: nat, b: nat, c: nat, d: nat)
    requires n == a * 16777216 + b * 65536 + c * 256 + d && b < 256 && c < 256 && d < 256
    ensures n / 16777216 == a && n / 65536 % 256 == b && n / 256 % 256 == c && n % 256 == d
  {
    By16777216(n, a, b * 65536 + c * 256 + d);
    By65536(n, a * 256 + b, c * 256 + d);
    By256(a * 256 + b, a, b);
    By256(n, a * 65536 + b * 256 + c, d);
    By256(a * 65536 + b * 256 + c, a * 256 + b, c);
  }

  lemma B4IsBe32(n: nat)
    requires n < 4294967296
    ensures B4(n) == Be32(n)
  {
    var high, low := n / 65536, n % 65536;
    FourDigits(n, high / 256, high % 256, low / 256, low % 256);
  }

  lemma B2Reads(b: Bytes, i: nat, n: nat)
    requires n < 65536 && Matches(b, i, B2(n))
    ensures Get16(b, i) == n
  {
    Get16Reads(b, i, n);
  }

  lemma B4Reads(b: Bytes, i: nat, n: nat)
    requires n < 4294967296 && Matches(b, i, B4(n))
    ensures Get32(b, i) == n
  {
    B4IsBe32(n);
    Get32Reads(b, i, n);
  }

  // ----- forms -----

  /** The four tags of atoms: with a length of two bytes or one, in Latin-1 or UTF-8. */
  datatype AtomTag = Latin | SmallLatin | Utf8 | SmallUtf8

  datatype Label = Label(tag: AtomTag, name: Name)

  datatype Form =
    | SmallInteger(v: Byte)
    | Integer(i: int)
    | Big(large: bool, sign: Byte, digits: Bytes)
    | AtomForm(atom: Label)
    | Nil
    | StringForm(chars: Bytes)
    | BinaryForm(data: Bytes)
    | OldPid(node: Label, id: nat, serial: nat, low: Byte)
    | NewPid(node: Label, id: nat, serial: nat, creation: nat)
    | OldRef(rest: Bytes)
    | NewRef(node: Label, low: Byte, words: seq<nat>)
    | NewerRef(node: Label, creation: nat, words: seq<nat>)

  datatype Wire =
    | Simple(form: Form)
    | TupleForm(large: bool, items: seq<Wire>)
    | ListForm(items: seq<Wire>)

  predicate Word(n: nat) {
    n < 4294967296
  }

  predicate LabelFits(l: Label) {
    |l.name| < if l.tag.Latin? || l.tag.Utf8? then 65536 else 256
  }

  /** The numbers and lengths fit their fields. */
  predicate FormFits(f: Form) {
    match f
    case Integer(i) => -2147483648 <= i <= 2147483647
    case Big(large, _, d) => |d| < if large then 4294967296 else 256
    case AtomForm(l) => LabelFits(l)
    case StringForm(s) => |s| < 65536
    case BinaryForm(d) => Word(|d|)
    case OldPid(l, id, serial, _) => LabelFits(l) && Word(id) && Word(serial)
    case NewPid(l, id, serial, c) => LabelFits(l) && Word(id) && Word(serial) && Word(c)
    case NewRef(l, _, ws) => LabelFits(l) && |ws| < 65536 && AllWords(ws)
    case NewerRef(l, c, ws) => LabelFits(l) && Word(c) && |ws| < 65536 && AllWords(ws)
    case _ => true
  }

  predicate Fits(w: Wire)
    decreases w, 0
  {
    match w
    case Simple(f) => FormFits(f)
    case TupleForm(large, ws) => |ws| < (if large then 4294967296 else 256) && AllFit(ws)
    case ListForm(ws) => Word(|ws|) && AllFit(ws)
  }

  predicate AllFit(ws: seq<Wire>)
    decreases ws, 1
  {
    ws == [] || (Fits(ws[0]) && AllFit(ws[1..]))
  }

  // ----- their bytes -----

  function SpellLabel(l: Label): Bytes
    requires LabelFits(l)
  {
    match l.tag
    case Latin => [100] + B2(|l.name|) + l.name
    case SmallLatin => [115, |l.name|] + l.name
    case Utf8 => [118] + B2(|l.name|) + l.name
    case SmallUtf8 => [119, |l.name|] + l.name
  }

  function SpellWords(ws: seq<nat>): (r: Bytes)
    requires AllWords(ws)
    ensures |r| == 4 * |ws|
  {
    if ws == [] then []
    else
      assert Word(ws[0]);
      B4(ws[0]) + SpellWords(ws[1..])
  }

  function SpellForm(f: Form): Bytes
    requires FormFits(f)
  {
    match f
    case SmallInteger(v) => [97, v]
    case Integer(i) => [98] + B4(if i < 0 then i + 4294967296 else i)
    case Big(large, sign, d) => (if large then [111] + B4(|d|) else [110, |d|]) + [sign] + d
    case AtomForm(l) => SpellLabel(l)
    case Nil => [106]
    case StringForm(s) => [107] + B2(|s|) + s
    case BinaryForm(d) => [109] + B4(|d|) + d
    case OldPid(l, id, serial, low) => [103] + SpellLabel(l) + (B4(id) + B4(serial)) + [low]
    case NewPid(l, id, serial, c) => [88] + SpellLabel(l) + (B4(id) + B4(serial)) + B4(c)
    case OldRef(rest) => [101] + rest
    case NewRef(l, low, ws) => ([114] + B2(|ws|)) + SpellLabel(l) + [low] + SpellWords(ws)
    case NewerRef(l, c, ws) => ([90] + B2(|ws|)) + SpellLabel(l) + B4(c) + SpellWords(ws)
  }

  function Spell(w: Wire): Bytes
    requires Fits(w)
    decreases w, 0
  {
    match w
    case Simple(f) => SpellForm(f)
    case TupleForm(large, ws) => (if large then [105] + B4(|ws|) else [104, |ws|]) + SpellAll(ws)
    case ListForm(ws) => [108] + B4(|ws|) + SpellAll(ws) + (if ws == [] then [] else [106])
  }

  function SpellAll(ws: seq<Wire>): Bytes
    requires AllFit(ws)
    decreases ws, 1
  {
    if ws == [] then [] else Spell(ws[0]) + SpellAll(ws[1..])
  }

  // ----- their meaning -----

  datatype Meaning = Means(term: Term) | Refused(failure: DecodeFailure)

  /** Little-endian digits: the last one counts most. */
  function Unsigned(d: Bytes): nat {
    if d == [] then 0 else Unsigned(d[..|d| - 1]) + (d[|d| - 1] as int) * Power(|d| - 1)
  }

  function Power(k: nat): nat {
    if k == 0 then 1 else 256 * Power(k - 1)
  }

  predicate GoodName(n: Name) {
    |n| <= 1021 && Utf8Length(n) <= 255
  }

  predicate GoodNode(n: Name) {
    1 <= |n| <= 128 && GoodName(n)
  }

  function LowBits(ws: seq<nat>): (r: seq<nat>)
    ensures |r| == |ws|
  {
    seq(|ws|, k requires 0 <= k < |ws| => ws[k] % 262144)
  }

  function BigMeaning(sign: Byte, u: nat): Meaning {
    if sign == 0 then if u > 9223372036854775807 then Refused(IntegerTooBig) else Means(Long(u))
    else if u > 9223372036854775808 then Refused(IntegerTooBig) else Means(Long(0 - u))
  }

  /** Integers need 64 bits at the most, references three to five words, nodes a short name. */
  function FormMeaning(f: Form): Meaning {
    match f
    case SmallInteger(v) => Means(Long(v))
    case Integer(i) => Means(Long(i))
    case Big(_, sign, d) => BigMeaning(sign, Unsigned(d))
    case AtomForm(l) =>
      if l.name == [116, 114, 117, 101] then Means(Bool(true))
      else if l.name == [102, 97, 108, 115, 101] then Means(Bool(false))
      else if GoodName(l.name) then Means(Atom(l.name)) else Refused(NameTooLong)
    case Nil => Means(List([]))
    case StringForm(s) => Means(Str(s))
    case BinaryForm(d) => Means(Binary(d))
    case OldPid(l, id, serial, low) =>
      if GoodNode(l.name) then Means(Pid(l.name, id, serial, low % 4)) else Refused(BadNode)
    case NewPid(l, id, serial, c) =>
      if GoodNode(l.name) then Means(Pid(l.name, id, serial, c)) else Refused(BadNode)
    case OldRef(_) => Refused(BadRefCount)
    case NewRef(l, low, ws) =>
      if !(3 <= |ws| <= 5) then Refused(BadRefCount)
      else if GoodNode(l.name) then Means(Ref(l.name, LowBits(ws), low % 4)) else Refused(BadNode)
    case NewerRef(l, c, ws) =>
      if !(3 <= |ws| <= 5) then Refused(BadRefCount)
      else if GoodNode(l.name) then Means(Ref(l.name, ws, c)) else Refused(BadNode)
  }

  /** What a form means, and its end. */
  function Outcome(m: Meaning, e: nat): Decoded<Term> {
    if m.Means? then Ok(m.term, e) else Err(m.failure)
  }

  // ----- simple forms are decoded -----

  lemma LabelReads(b: Bytes, i: nat, l: Label)
    requires LabelFits(l) && Matches(b, i, SpellLabel(l))
    ensures AtomName(b, i) == Ok(l.name, i + |SpellLabel(l)|)
    ensures i < |b| && b[i] in {100, 115, 118, 119}
  {
    if l.tag.Latin? || l.tag.Utf8? {
      var tag: Byte := if l.tag.Latin? then 100 else 118;
      ThreeParts(b, i, [tag], B2(|l.name|), l.name);
      MatchesAt(b, i, [tag], 0);
      B2Reads(b, i + 1, |l.name|);
      MatchesSlice(b, i + 3, l.name);
    } else {
      var tag: Byte := if l.tag.SmallLatin? then 115 else 119;
      MatchesParts(b, i, [tag, |l.name|], l.name);
      MatchesPair(b, i, tag, |l.name|);
      MatchesSlice(b, i + 2, l.name);
    }
  }

  lemma NodeReads(b: Bytes, i: nat, l: Label)
    requires LabelFits(l) && Matches(b, i, SpellLabel(l))
    ensures DecodeNode(b, i) == if GoodNode(l.name) then Ok(l.name, i + |SpellLabel(l)|) else Err(BadNode)
  {
    LabelReads(b, i, l);
  }

  lemma {:induction false} UnsignedFront(d: Bytes)
    requires d != []
    ensures Unsigned(d) == d[0] as int + 256 * Unsigned(d[1..])
  {
    if |d| > 1 {
      var init := d[..|d| - 1];
      UnsignedFront(init);
      assert init[1..] == d[1..][..|d| - 2] && d[1..][|d| - 2] == d[|d| - 1];
    } else {
      assert d[..0] == [] && d[1..] == [];
    }
  }

  lemma {:induction false} UnsignedIs(d: Bytes)
    ensures MagnitudeValue(d) == Unsigned(d)
  {
    if d != [] {
      UnsignedIs(d[1..]);
      UnsignedFront(d);
    }
  }

  lemma BigReads(b: Bytes, i: nat, large: bool, sign: Byte, d: Bytes)
    requires |d| < (if large then 4294967296 else 256) && Matches(b, i, SpellForm(Big(large, sign, d)))
    ensures DecodeSimple(b, i) == Outcome(FormMeaning(Big(large, sign, d)), i + |SpellForm(Big(large, sign, d))|)
  {
    var hdr: Bytes := if large then [111] + B4(|d|) else [110, |d|];
    var p := i + |hdr|;
    ThreeParts(b, i, hdr, [sign], d);
    MatchesAt(b, p, [sign], 0);
    MatchesSlice(b, p + 1, d);
    UnsignedIs(d);
    BigFrame(b, p, sign, d, Unsigned(d));
    if large {
      MatchesParts(b, i, [111], B4(|d|));
      MatchesAt(b, i, [111], 0);
      B4Reads(b, i + 1, |d|);
    } else {
      MatchesPair(b, i, 110, |d|);
    }
  }

  lemma BigFrame(b: Bytes, p: nat, sign: Byte, d: Bytes, u: nat)
    requires p + 1 + |d| <= |b| && b[p] == sign && b[p + 1..p + 1 + |d|] == d && MagnitudeValue(d) == u
    ensures DecodeBig(b, p, |d|) == Outcome(BigMeaning(sign, u), p + 1 + |d|)
  {
  }

  lemma IntegerReads(b: Bytes, i: nat, v: int)
    requires -2147483648 <= v <= 2147483647
    requires Matches(b, i, [98] + B4(if v < 0 then v + 4294967296 else v))
    ensures DecodeSimple(b, i) == Ok(Long(v), i + 5)
  {
    var u := if v < 0 then v + 4294967296 else v;
    MatchesParts(b, i, [98], B4(u));
    MatchesAt(b, i, [98], 0);
    B4Reads(b, i + 1, u);
  }

  lemma AtomReads(b: Bytes, i: nat, l: Label)
    requires LabelFits(l) && Matches(b, i, SpellLabel(l))
    ensures DecodeSimple(b, i) == Outcome(FormMeaning(AtomForm(l)), i + |SpellLabel(l)|)
  {
    LabelReads(b, i, l);
  }

  lemma StringReads(b: Bytes, i: nat, s: Bytes)
    requires |s| < 65536 && Matches(b, i, [107] + B2(|s|) + s)
    ensures DecodeSimple(b, i) == Ok(Str(s), i + 3 + |s|)
  {
    ThreeParts(b, i, [107], B2(|s|), s);
    MatchesAt(b, i, [107], 0);
    B2Reads(b, i + 1, |s|);
    MatchesSlice(b, i + 3, s);
  }

  lemma BinaryReads(b: Bytes, i: nat, d: Bytes)
    requires Word(|d|) && Matches(b, i, [109] + B4(|d|) + d)
    ensures DecodeSimple(b, i) == Ok(Binary(d), i + 5 + |d|)
  {
    ThreeParts(b, i, [109], B4(|d|), d);
    MatchesAt(b, i, [109], 0);
    B4Reads(b, i + 1, |d|);
    MatchesSlice(b, i + 5, d);
  }

  lemma PidReads(b: Bytes, i: nat, l: Label, id: nat, serial: nat, node: Bytes, numbers: Bytes, creation: Bytes)
    requires LabelFits(l) && Word(id) && Word(serial)
    requires node == SpellLabel(l) && numbers == B4(id) + B4(serial) && (|creation| == 4 || |creation| == 1)
    requires Matches(b, i, [if |creation| == 4 then 88 else 103] + node + numbers + creation)
    ensures var p := i + 1 + |SpellLabel(l)|;
      && p + 8 + |creation| <= |b|
      && b[i] == (if |creation| == 4 then 88 else 103) && Matches(b, p + 8, creation)
      && DecodeNode(b, i + 1) == (if GoodNode(l.name) then Ok(l.name, p) else Err(BadNode))
      && Get32(b, p) == id && Get32(b, p + 4) == serial
  {
    PidFrame(b, i, if |creation| == 4 then 88 else 103, node, numbers, creation);
    NodeReads(b, i + 1, l);
    TwoWordsRead(b, i + 1 + |SpellLabel(l)|, id, serial);
  }

  lemma PidFrame(b: Bytes, i: nat, tag: Byte, node: Bytes, numbers: Bytes, creation: Bytes)
    requires |numbers| == 8 && Matches(b, i, [tag] + node + numbers + creation)
    ensures var p := i + 1 + |node|;
      && p + 8 + |creation| <= |b| && b[i] == tag
      && Matches(b, i + 1, node) && Matches(b, p, numbers) && Matches(b, p + 8, creation)
  {
    FourParts(b, i, [tag], node, numbers, creation);
    MatchesAt(b, i, [tag], 0);
  }

  lemma TwoWordsRead(b: Bytes, p: nat, id: nat, serial: nat)
    requires Word(id) && Word(serial) && Matches(b, p, B4(id) + B4(serial))
    ensures p + 8 <= |b| && Get32(b, p) == id && Get32(b, p + 4) == serial
  {
    MatchesParts(b, p, B4(id), B4(serial));
    B4Reads(b, p, id);
    B4Reads(b, p + 4, serial);
  }

  lemma OldPidReads(b: Bytes, i: nat, l: Label, id: nat, serial: nat, low: Byte)
    requires FormFits(OldPid(l, id, serial, low)) && Matches(b, i, SpellForm(OldPid(l, id, serial, low)))
    ensures DecodeSimple(b, i) ==
            Outcome(FormMeaning(OldPid(l, id, serial, low)), i + |SpellForm(OldPid(l, id, serial, low))|)
  {
    PidReads(b, i, l, id, serial, SpellLabel(l), B4(id) + B4(serial), [low]);
    MatchesAt(b, i + 9 + |SpellLabel(l)|, [low], 0);
  }

  lemma NewPidReads(b: Bytes, i: nat, l: Label, id: nat, serial: nat, c: nat)
    requires FormFits(NewPid(l, id, serial, c)) && Matches(b, i, SpellForm(NewPid(l, id, serial, c)))
    ensures DecodeSimple(b, i) ==
            Outcome(FormMeaning(NewPid(l, id, serial, c)), i + |SpellForm(NewPid(l, id, serial, c))|)
  {
    PidReads(b, i, l, id, serial, SpellLabel(l), B4(id) + B4(serial), B4(c));
    B4Reads(b, i + 9 + |SpellLabel(l)|, c);
  }

  lemma NextWord(b: Bytes, i: nat, x: nat, n: nat, limit: nat)
    requires Word(x) && Matches(b, i, B4(x)) && i + 4 + 4 * n <= |b| && limit > 0
    ensures Words(b, i, n + 1, limit) == [x % limit] + Words(b, i + 4, n, limit)
  {
    B4Reads(b, i, x);
  }

  lemma NextFullWord(b: Bytes, i: nat, x: nat, n: nat)
    requires Word(x) && Matches(b, i, B4(x)) && i + 4 + 4 * n <= |b|
    ensures Words(b, i, n + 1, 4294967296) == [x] + Words(b, i + 4, n, 4294967296)
  {
    NextWord(b, i, x, n, 4294967296);
  }

  lemma FirstAndRest(ws: seq<nat>, x: nat, rest: seq<nat>)
    requires ws != [] && x == ws[0] && rest == ws[1..]
    ensures ws == [x] + rest
  {
  }

  lemma {:induction false} FullWords(b: Bytes, i: nat, ws: seq<nat>)
    requires AllWords(ws) && Matches(b, i, SpellWords(ws))
    ensures Words(b, i, |ws|, 4294967296) == ws
    decreases |ws|
  {
    if ws != [] {
      var x, rest := ws[0], ws[1..];
      MatchesParts(b, i, B4(x), SpellWords(rest));
      NextFullWord(b, i, x, |rest|);
      FullWords(b, i + 4, rest);
      FirstAndRest(ws, x, rest);
    }
  }

  lemma {:induction false} LowWords(b: Bytes, i: nat, ws: seq<nat>)
    requires AllWords(ws) && Matches(b, i, SpellWords(ws))
    ensures Words(b, i, |ws|, 262144) == LowBits(ws)
    decreases |ws|
  {
    if ws != [] {
      var x, rest := ws[0], ws[1..];
      MatchesParts(b, i, B4(x), SpellWords(rest));
      NextWord(b, i, x, |rest|, 262144);
      LowWords(b, i + 4, rest);
      assert LowBits(ws) == [x % 262144] + LowBits(rest);
    }
  }

  /** What stands in a reference of either form whose creation takes `size` bytes. */
  predicate RefParts(b: Bytes, i: nat, l: Label, size: nat, n: nat) {
    var p := i + 3 + |SpellLabelOf(l)|;
    && p + size + 4 * n <= |b| && Get16(b, i + 1) == n
    && DecodeNode(b, i + 3) == (if GoodNode(l.name) then Ok(l.name, p) else Err(BadNode))
  }

  function SpellLabelOf(l: Label): Bytes {
    if LabelFits(l) then SpellLabel(l) else []
  }

  lemma RefReads(b: Bytes, i: nat, l: Label, tag: Byte, n: nat, head: Bytes, creation: Bytes, words: Bytes)
    requires LabelFits(l) && n < 65536 && head == [tag] + B2(n) && |words| == 4 * n
    requires Matches(b, i, head + SpellLabel(l) + creation + words)
    ensures RefParts(b, i, l, |creation|, n) && b[i] == tag
    ensures var p := i + 3 + |SpellLabel(l)|;
      Matches(b, p, creation) && Matches(b, p + |creation|, words)
  {
    RefFrame(b, i, head, SpellLabel(l), creation, words);
    CountReads(b, i, tag, n);
    NodeReads(b, i + 3, l);
  }

  lemma RefFrame(b: Bytes, i: nat, head: Bytes, node: Bytes, creation: Bytes, words: Bytes)
    requires |head| == 3 && Matches(b, i, head + node + creation + words)
    ensures var p := i + 3 + |node|;
      && Matches(b, i, head) && Matches(b, i + 3, node) && Matches(b, p, creation)
      && Matches(b, p + |creation|, words) && p + |creation| + |words| <= |b|
  {
    FourParts(b, i, head, node, creation, words);
  }

  lemma CountReads(b: Bytes, i: nat, tag: Byte, n: nat)
    requires n < 65536 && Matches(b, i, [tag] + B2(n))
    ensures i + 3 <= |b| && b[i] == tag && Get16(b, i + 1) == n
  {
    MatchesParts(b, i, [tag], B2(n));
    MatchesAt(b, i, [tag], 0);
    B2Reads(b, i + 1, n);
  }

  lemma NewRefReads(b: Bytes, i: nat, l: Label, low: Byte, ws: seq<nat>)
    requires FormFits(NewRef(l, low, ws)) && Matches(b, i, SpellForm(NewRef(l, low, ws)))
    ensures DecodeSimple(b, i) == Outcome(FormMeaning(NewRef(l, low, ws)), i + |SpellForm(NewRef(l, low, ws))|)
  {
    var p := i + 3 + |SpellLabel(l)|;
    RefReads(b, i, l, 114, |ws|, [114] + B2(|ws|), [low], SpellWords(ws));
    MatchesAt(b, p, [low], 0);
    LowWords(b, p + 1, ws);
    OldRefDecoded(b, i, l, low, |ws|, LowBits(ws));
  }

  lemma OldRefDecoded(b: Bytes, i: nat, l: Label, low: Byte, n: nat, ids: seq<nat>)
    requires LabelFits(l) && RefParts(b, i, l, 1, n) && b[i] == 114
    requires var p := i + 3 + |SpellLabel(l)|; b[p] == low && Words(b, p + 1, n, 262144) == ids
    ensures DecodeSimple(b, i) ==
      if !(3 <= n <= 5) then Err(BadRefCount)
      else if GoodNode(l.name) then Ok(Ref(l.name, ids, low % 4), i + 4 + |SpellLabel(l)| + 4 * n)
      else Err(BadNode)
  {
  }

  lemma NewerRefReads(b: Bytes, i: nat, l: Label, c: nat, ws: seq<nat>)
    requires FormFits(NewerRef(l, c, ws)) && Matches(b, i, SpellForm(NewerRef(l, c, ws)))
    ensures DecodeSimple(b, i) == Outcome(FormMeaning(NewerRef(l, c, ws)), i + |SpellForm(NewerRef(l, c, ws))|)
  {
    var p := i + 3 + |SpellLabel(l)|;
    RefReads(b, i, l, 90, |ws|, [90] + B2(|ws|), B4(c), SpellWords(ws));
    B4Reads(b, p, c);
    FullWords(b, p + 4, ws);
    NewerRefParts(b, i, l, c, ws, p);
  }

  lemma NewerRefParts(b: Bytes, i: nat, l: Label, c: nat, ws: seq<nat>, p: nat)
    requires LabelFits(l) && Word(c) && AllWords(ws) && p == i + 3 + |SpellLabel(l)|
    requires RefParts(b, i, l, 4, |ws|) && b[i] == 90 && Get32(b, p) == c
    requires Words(b, p + 4, |ws|, 4294967296) == ws
    ensures DecodeSimple(b, i) == Outcome(FormMeaning(NewerRef(l, c, ws)), p + 4 + 4 * |ws|)
  {
    NewerRefDecoded(b, i, l, c, |ws|, ws);
    NewerRefMeans(l, c, ws, p + 4 + 4 * |ws|, DecodeSimple(b, i));
  }

  lemma NewerRefMeans(l: Label, c: nat, ws: seq<nat>, e: nat, r: Decoded<Term>)
    requires r ==
      if !(3 <= |ws| <= 5) then Err(BadRefCount)
      else if GoodNode(l.name) then Ok(Ref(l.name, ws, c), e)
      else Err(BadNode)
    ensures r == Outcome(FormMeaning(NewerRef(l, c, ws)), e)
  {
  }

  lemma NewerRefDecoded(b: Bytes, i: nat, l: Label, c: nat, n: nat, ids: seq<nat>)
    requires LabelFits(l) && RefParts(b, i, l, 4, n) && b[i] == 90
    requires var p := i + 3 + |SpellLabel(l)|; Get32(b, p) == c && Words(b, p + 4, n, 4294967296) == ids
    ensures DecodeSimple(b, i) ==
      if !(3 <= n <= 5) then Err(BadRefCount)
      else if GoodNode(l.name) then Ok(Ref(l.name, ids, c), i + 7 + |SpellLabel(l)| + 4 * n)
      else Err(BadNode)
  {
  }

  /** Every simple form is decoded to what it means, and no further. */
  lemma FormReads(b: Bytes, i: nat, f: Form)
    requires FormFits(f) && Matches(b, i, SpellForm(f))
    ensures DecodeSimple(b, i) == Outcome(FormMeaning(f), i + |SpellForm(f)|)
    ensures i < |b| && b[i] !in {104, 105, 108}
  {
    match f
    case SmallInteger(v) => MatchesPair(b, i, 97, v);
    case Integer(v) => IntegerReads(b, i, v); MatchesAt(b, i, SpellForm(f), 0);
    case Big(large, sign, d) => BigReads(b, i, large, sign, d); MatchesAt(b, i, SpellForm(f), 0);
    case AtomForm(l) => AtomReads(b, i, l); LabelReads(b, i, l);
    case Nil => MatchesAt(b, i, [106], 0);
    case StringForm(s) => StringReads(b, i, s); MatchesAt(b, i, SpellForm(f), 0);
    case BinaryForm(d) => BinaryReads(b, i, d); MatchesAt(b, i, SpellForm(f), 0);
    case OldPid(l, id, serial, low) => OldPidReads(b, i, l, id, serial, low); MatchesAt(b, i, SpellForm(f), 0);
    case NewPid(l, id, serial, c) => NewPidReads(b, i, l, id, serial, c); MatchesAt(b, i, SpellForm(f), 0);
    case OldRef(rest) => MatchesAt(b, i, SpellForm(f), 0);
    case NewRef(l, low, ws) => NewRefReads(b, i, l, low, ws); MatchesAt(b, i, SpellForm(f), 0);
    case NewerRef(l, c, ws) => NewerRefReads(b, i, l, c, ws); MatchesAt(b, i, SpellForm(f), 0);
  }

  // ----- nested forms are decoded -----

  /** Tuples and lists mean what their items mean; the first item that is refused decides. */
  function MeaningOf(w: Wire): Meaning
    decreases w, 0
  {
    match w
    case Simple(f) => FormMeaning(f)
    case TupleForm(_, ws) =>
      var m := MeaningsOf(ws);
      if m.AllMean? then Means(Tuple(m.terms)) else Refused(m.failure)
    case ListForm(ws) =>
      var m := MeaningsOf(ws);
      if m.AllMean? then Means(List(m.terms)) else Refused(m.failure)
  }

  datatype Meanings = AllMean(terms: seq<Term>) | OneRefused(failure: DecodeFailure)

  function MeaningsOf(ws: seq<Wire>): (r: Meanings)
    ensures r.AllMean? ==> |r.terms| == |ws|
    decreases ws, 1
  {
    if ws == [] then AllMean([])
    else
      match MeaningOf(ws[0])
      case Refused(e) => OneRefused(e)
      case Means(t) =>
        var rest := MeaningsOf(ws[1..]);
        if rest.AllMean? then AllMean([t] + rest.terms) else rest
  }

  ghost predicate FormHere(f: Form, b: Bytes, i: nat) {
    FormFits(f) && Matches(b, i, SpellForm(f))
  }

  /** All that nesting asks of the decoder of simple terms. */
  ghost predicate ReadsForms(b: Bytes, simple: SimpleDecoder) {
    forall f, i: nat {:trigger FormHere(f, b, i)} :: FormHere(f, b, i) ==>
      simple(i) == Outcome(FormMeaning(f), i + |SpellForm(f)|) && i < |b| && b[i] !in {104, 105, 108}
  }

  function OutcomeAll(m: Meanings, acc: seq<Term>, e: nat): Decoded<seq<Term>> {
    if m.AllMean? then Ok(acc + m.terms, e) else Err(m.failure)
  }

  lemma {:induction false} WireReads(b: Bytes, simple: SimpleDecoder, i: nat, w: Wire)
    requires Advances(b, simple) && ReadsForms(b, simple) && Fits(w) && Matches(b, i, Spell(w))
    ensures TermAt(b, simple, i) == Outcome(MeaningOf(w), i + |Spell(w)|)
    decreases w, 0
  {
    match w
    case Simple(f) => assert FormHere(f, b, i);
    case TupleForm(large, ws) => TupleWireReads(b, simple, i, large, ws);
    case ListForm(ws) => ListWireReads(b, simple, i, ws);
  }

  lemma {:induction false} TupleWireReads(b: Bytes, simple: SimpleDecoder, i: nat, large: bool, ws: seq<Wire>)
    requires Advances(b, simple) && ReadsForms(b, simple)
    requires Fits(TupleForm(large, ws)) && Matches(b, i, Spell(TupleForm(large, ws)))
    ensures TermAt(b, simple, i) == Outcome(MeaningOf(TupleForm(large, ws)), i + |Spell(TupleForm(large, ws))|)
    decreases ws, 2
  {
    var hdr: Bytes := if large then [105] + B4(|ws|) else [104, |ws|];
    MatchesParts(b, i, hdr, SpellAll(ws));
    WiresRead(b, simple, i + |hdr|, ws, []);
    assert MeaningsOf(ws).AllMean? ==> [] + MeaningsOf(ws).terms == MeaningsOf(ws).terms;
    TupleReads(b, simple, i, large, |ws|, MeaningsOf(ws), i + |hdr| + |SpellAll(ws)|);
  }

  lemma {:induction false} ListWireReads(b: Bytes, simple: SimpleDecoder, i: nat, ws: seq<Wire>)
    requires Advances(b, simple) && ReadsForms(b, simple)
    requires Fits(ListForm(ws)) && Matches(b, i, Spell(ListForm(ws)))
    ensures TermAt(b, simple, i) == Outcome(MeaningOf(ListForm(ws)), i + |Spell(ListForm(ws))|)
    decreases ws, 2
  {
    var end: Bytes := if ws == [] then [] else [106];
    ListParts(b, i, |ws|, SpellAll(ws), end);
    if ws != [] {
      WiresRead(b, simple, i + 5, ws, []);
      assert MeaningsOf(ws).AllMean? ==> [] + MeaningsOf(ws).terms == MeaningsOf(ws).terms;
      ListReads(b, simple, i, |ws|, MeaningsOf(ws), i + 5 + |SpellAll(ws)|);
    }
  }

  lemma ListParts(b: Bytes, i: nat, n: nat, body: Bytes, end: Bytes)
    requires Word(n) && Matches(b, i, [108] + B4(n) + body + end)
    ensures i + 5 + |body| + |end| <= |b| && b[i] == 108 && Get32(b, i + 1) == n
    ensures Matches(b, i + 5, body) && Matches(b, i + 5 + |body|, end)
    ensures end == [106] ==> b[i + 5 + |body|] == 106
  {
    FourParts(b, i, [108], B4(n), body, end);
    MatchesAt(b, i, [108], 0);
    B4Reads(b, i + 1, n);
    if end == [106] { MatchesAt(b, i + 5 + |body|, end, 0); }
  }

  lemma TupleReads(b: Bytes, simple: SimpleDecoder, i: nat, large: bool, n: nat, m: Meanings, e: nat)
    requires Advances(b, simple) && n < (if large then 4294967296 else 256)
    requires Matches(b, i, if large then [105] + B4(n) else [104, n])
    requires var r := TermsAt(b, simple, i + (if large then 5 else 2), n, []);
      r == if m.AllMean? then Ok(m.terms, e) else Err(m.failure)
    ensures TermAt(b, simple, i) == if m.AllMean? then Ok(Tuple(m.terms), e) else Err(m.failure)
  {
    if large {
      MatchesParts(b, i, [105], B4(n));
      MatchesAt(b, i, [105], 0);
      B4Reads(b, i + 1, n);
    } else {
      MatchesPair(b, i, 104, n);
    }
  }

  lemma ListReads(b: Bytes, simple: SimpleDecoder, i: nat, n: nat, m: Meanings, e: nat)
    requires Advances(b, simple) && 0 < n && i + 5 <= |b| && b[i] == 108 && Get32(b, i + 1) == n
    requires e < |b| && b[e] == 106
    requires TermsAt(b, simple, i + 5, n, []) == if m.AllMean? then Ok(m.terms, e) else Err(m.failure)
    ensures TermAt(b, simple, i) == if m.AllMean? then Ok(List(m.terms), e + 1) else Err(m.failure)
  {
  }

  lemma {:induction false} WiresRead(b: Bytes, simple: SimpleDecoder, i: nat, ws: seq<Wire>, acc: seq<Term>)
    requires Advances(b, simple) && ReadsForms(b, simple) && AllFit(ws) && Matches(b, i, SpellAll(ws))
    ensures TermsAt(b, simple, i, |ws|, acc) == OutcomeAll(MeaningsOf(ws), acc, i + |SpellAll(ws)|)
    decreases ws, 1
  {
    if ws == [] {
      assert acc + [] == acc;
    } else {
      var k := i + |Spell(ws[0])|;
      MatchesParts(b, i, Spell(ws[0]), SpellAll(ws[1..]));
      WireReads(b, simple, i, ws[0]);
      var m := MeaningOf(ws[0]);
      if m.Means? {
        NextTerm(b, simple, i, |ws|, acc, m.term, k);
        WiresRead(b, simple, k, ws[1..], acc + [m.term]);
        var rest := MeaningsOf(ws[1..]);
        if rest.AllMean? { Associative(acc, [m.term], rest.terms); }
      } else {
        FirstRefused(b, simple, i, |ws|, acc, m.failure);
      }
    }
  }

  lemma FirstRefused(b: Bytes, simple: SimpleDecoder, i: nat, n: nat, acc: seq<Term>, e: DecodeFailure)
    requires Advances(b, simple) && i <= |b| && n > 0 && TermAt(b, simple, i) == Err(e)
    ensures TermsAt(b, simple, i, n, acc) == Err(e)
  {
  }

  // ----- the theorems -----

  /**
   * Wherever one of the forms stands in a buffer, decoding there gives its meaning and stops
   * behind it, or refuses it for the reason that its meaning states.
   */
  lemma DecodeReadsWire(b: Bytes, i: nat, w: Wire)
    requires Fits(w) && Matches(b, i, Spell(w))
    ensures Decode(b, i) == Outcome(MeaningOf(w), i + |Spell(w)|)
  {
    forall f, j: nat | FormHere(f, b, j)
      ensures Codec.Simple(b)(j) == Outcome(FormMeaning(f), j + |SpellForm(f)|) && j < |b| && b[j] !in {104, 105, 108}
    {
      FormReads(b, j, f);
    }
    WireReads(b, Codec.Simple(b), i, w);
  }
}
