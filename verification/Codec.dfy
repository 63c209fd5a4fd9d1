/**
 * The binary form of terms: the bytes that `encode` writes, the size that `encode_size`
 * predicts and what `decode` makes of a buffer. Tags and layouts are those of the
 * "External Term Format" chapter of the ERTS User's Guide.
 */
module Codec {
  import opened Terms

  type Bytes = seq<Byte>

  const SMALL_INTEGER_EXT: Byte := 97
  const INTEGER_EXT: Byte := 98
  const SMALL_BIG_EXT: Byte := 110
  const LARGE_BIG_EXT: Byte := 111
  const ATOM_EXT: Byte := 100
  const SMALL_ATOM_EXT: Byte := 115
  const ATOM_UTF8_EXT: Byte := 118
  const SMALL_ATOM_UTF8_EXT: Byte := 119
  const SMALL_TUPLE_EXT: Byte := 104
  const LARGE_TUPLE_EXT: Byte := 105
  const NIL_EXT: Byte := 106
  const STRING_EXT: Byte := 107
  const LIST_EXT: Byte := 108
  const BINARY_EXT: Byte := 109
  const PID_EXT: Byte := 103
  const NEW_PID_EXT: Byte := 88
  const REFERENCE_EXT: Byte := 101
  const NEW_REFERENCE_EXT: Byte := 114
  const NEWER_REFERENCE_EXT: Byte := 90
  const VERSION_MAGIC: Byte := 131

  const INT_MAX := 0x7fff_ffff

  /** Integers of at most 28 bits are written as INTEGER_EXT. */
  const ERL_MAX := 0x7ff_ffff
  const ERL_MIN := -0x800_0000

  /** `MAXNODELEN`: an alive name of 63 bytes, `@` and a host name of 64. */
  const MAX_NODE_BYTES := 128

  /** Ids in a reference: `ref_blob` wants three to five. */
  const MIN_REF_IDS := 3
  const MAX_REF_IDS := 5

  // ----- integers -----

  function Be16(n: nat): (r: Bytes)
    requires n < 0x1_0000
    ensures |r| == 2
  {
    [n / 256, n % 256]
  }

  function Be32(n: nat): (r: Bytes)
    requires n < 0x1_0000_0000
    ensures |r| == 4
  {
    Be16(n / 0x1_0000) + Be16(n % 0x1_0000)
  }

  function Get16(b: Bytes, i: nat): (n: nat)
    requires i + 2 <= |b|
    ensures n < 0x1_0000
  {
    (b[i] as int) * 256 + b[i + 1]
  }

  function Get32(b: Bytes, i: nat): (n: nat)
    requires i + 4 <= |b|
    ensures n < 0x1_0000_0000
  {
    Get16(b, i) * 0x1_0000 + Get16(b, i + 2)
  }

  /** Little-endian digits without leading zeros. */
  function Magnitude(n: nat): Bytes {
    if n == 0 then [] else [n % 256] + Magnitude(n / 256)
  }

  function MagnitudeValue(d: Bytes): nat {
    if d == [] then 0 else d[0] + 256 * MagnitudeValue(d[1..])
  }

  function Signed32(n: nat): int {
    if n < 0x8000_0000 then n else n - 0x1_0000_0000
  }

  function Abs(i: int): nat {
    if i < 0 then -i else i
  }

  // ----- encoding -----

  predicate ValidNode(n: Name) {
    1 <= |n| <= MAX_NODE_BYTES && ValidName(n)
  }

  /** What the term classes guarantee of their values, and the lengths the format can hold. */
  predicate Encodable(t: Term) {
    match t
    case Long(i) => LONG_MIN <= i <= LONG_MAX
    case Bool(_) => true
    case Atom(n) => ValidName(n)
    case Str(s) => |s| <= INT_MAX
    case Binary(d) => |d| < 0x1_0000_0000
    case Pid(n, id, serial, c) => ValidNode(n) && id < 0x1_0000_0000 && serial < 0x1_0000_0000 && c < 0x1_0000_0000
    case Ref(n, ids, c) =>
      ValidNode(n) && MIN_REF_IDS <= |ids| <= MAX_REF_IDS && c < 0x1_0000_0000 && AllWords(ids)
    case Tuple(es) => |es| <= INT_MAX && forall e | e in es :: Encodable(e)
    case List(es) => |es| < 0x1_0000_0000 && forall e | e in es :: Encodable(e)
    case Var(_, _) => false
  }

  predicate AllWords(ids: seq<nat>) {
    forall k | 0 <= k < |ids| :: ids[k] < 0x1_0000_0000
  }

  function EncodeLong(i: int): Bytes
    requires LONG_MIN <= i <= LONG_MAX
  {
    if 0 <= i < 256 then [SMALL_INTEGER_EXT, i]
    else if ERL_MIN <= i <= ERL_MAX then [INTEGER_EXT] + Be32(if i < 0 then i + 0x1_0000_0000 else i)
    else
      MagnitudeFits(Abs(i), 8);
      [SMALL_BIG_EXT, |Magnitude(Abs(i))|, if i < 0 then 1 else 0] + Magnitude(Abs(i))
  }

  function EncodeAtom(n: Name): Bytes
    requires ValidName(n)
  {
    if |n| > 255 then [ATOM_UTF8_EXT] + Be16(|n|) + n else [SMALL_ATOM_UTF8_EXT, |n|] + n
  }

  /** `ei_encode_string_len`: too long for STRING_EXT means a list of small integers. */
  function EncodeString(s: Bytes): Bytes
    requires |s| <= INT_MAX
  {
    if s == [] then [NIL_EXT]
    else if |s| <= 0xffff then [STRING_EXT] + Be16(|s|) + s
    else [LIST_EXT] + Be32(|s|) + SmallIntegers(s) + [NIL_EXT]
  }

  function SmallIntegers(s: Bytes): (r: Bytes)
    ensures |r| == 2 * |s|
  {
    if s == [] then [] else [SMALL_INTEGER_EXT, s[0]] + SmallIntegers(s[1..])
  }

  /** A node name inside a pid or reference always takes the long atom form. */
  function EncodeNode(n: Name): Bytes
    requires ValidNode(n)
  {
    [ATOM_UTF8_EXT] + Be16(|n|) + n
  }

  function EncodeWords(ids: seq<nat>): (r: Bytes)
    requires AllWords(ids)
    ensures |r| == 4 * |ids|
  {
    if ids == [] then [] else Be32(ids[0]) + EncodeWords(ids[1..])
  }

  function TupleHeader(n: nat): Bytes
    requires n <= INT_MAX
  {
    if n <= 255 then [SMALL_TUPLE_EXT, n] else [LARGE_TUPLE_EXT] + Be32(n)
  }

  function Encode(t: Term): Bytes
    requires Encodable(t)
    decreases t, 0
  {
    match t
    case Long(i) => EncodeLong(i)
    case Bool(b) => ShortNamesAreValid(BoolName(b)); EncodeAtom(BoolName(b))
    case Atom(n) => EncodeAtom(n)
    case Str(s) => EncodeString(s)
    case Binary(d) => [BINARY_EXT] + Be32(|d|) + d
    case Pid(n, id, serial, c) => [NEW_PID_EXT] + EncodeNode(n) + EncodeWords([id, serial, c])
    case Ref(n, ids, c) => [NEWER_REFERENCE_EXT] + Be16(|ids|) + EncodeNode(n) + EncodeWords([c] + ids)
    case Tuple(es) => TupleHeader(|es|) + EncodeAll(es)
    case List(es) => if es == [] then [NIL_EXT] else [LIST_EXT] + Be32(|es|) + EncodeAll(es) + [NIL_EXT]
  }

  function EncodeAll(ts: seq<Term>): Bytes
    requires forall t | t in ts :: Encodable(t)
    decreases ts, 1
  {
    if ts == [] then [] else Encode(ts[0]) + EncodeAll(ts[1..])
  }

  lemma {:induction false} MagnitudeFits(n: nat, k: nat)
    requires n < Pow256(k)
    ensures |Magnitude(n)| <= k
    decreases k
  {
    if k > 0 && n > 0 { MagnitudeFits(n / 256, k - 1); }
  }

  function Pow256(k: nat): nat {
    if k == 0 then 1 else 256 * Pow256(k - 1)
  }

  lemma {:induction false} ShortNamesAreValid(n: Name)
    requires |n| <= MAX_ATOM_CHARS
    ensures ValidName(n)
  {
    CodePointsAtMostBytes(n);
  }

  // ----- the size pass -----

  /** `encode_size` of each class. */
  function SizeOf(t: Term): nat
    requires Encodable(t)
    decreases t, 0
  {
    match t
    case Long(i) => if 0 <= i < 256 then 2 else if ERL_MIN <= i <= ERL_MAX then 5 else 3 + |Magnitude(Abs(i))|
    case Bool(b) => 2 + (if b then 4 else 5)
    case Atom(n) => (if |n| > 255 then 3 else 2) + |n|
    case Str(s) => if |s| == 0 then 1 else |s| + (if |s| <= 0xffff then 3 else 5 + |s| + 1)
    case Binary(d) => 5 + |d|
    case Pid(n, _, _, _) => 16 + |n|
    case Ref(n, ids, _) => 1 + 2 + (3 + |n|) + |ids| * 4 + 4
    case Tuple(es) => (if |es| <= 0xff then 2 else 5) + SizeOfAll(es)
    case List(es) => if |es| == 0 then 1 else 5 + 1 + SizeOfAll(es)
  }

  function SizeOfAll(ts: seq<Term>): nat
    requires forall t | t in ts :: Encodable(t)
    decreases ts, 1
  {
    if ts == [] then 0 else SizeOf(ts[0]) + SizeOfAll(ts[1..])
  }

  /** The write pass ends exactly where the size pass said it would. */
  lemma {:induction false} SizeIsExact(t: Term)
    requires Encodable(t)
    ensures |Encode(t)| == SizeOf(t)
    decreases t, 0
  {
    match t
    case Tuple(es) => SizesAreExact(es);
    case List(es) => SizesAreExact(es);
    case _ =>
  }

  lemma {:induction false} SizesAreExact(ts: seq<Term>)
    requires forall t | t in ts :: Encodable(t)
    ensures |EncodeAll(ts)| == SizeOfAll(ts)
    decreases ts, 1
  {
    if ts != [] {
      SizeIsExact(ts[0]);
      SizesAreExact(ts[1..]);
    }
  }

  // ----- decoding -----

  datatype DecodeFailure =
    | EmptyTerm
    | Truncated        // the source reads on; here reading past the buffer is an error
    | NameTooLong
    | BadNode
    | BadRefCount
    | IntegerTooBig
    | NotNil
    | Unsupported      // floats, ports, maps and everything the source rejects

  datatype Decoded<+T> = Ok(value: T, pos: nat) | Err(failure: DecodeFailure)

  /** The name in the atom at `i` (its tag byte), and the position behind it. */
  function AtomName(b: Bytes, i: nat): (r: Decoded<Name>)
    ensures r.Ok? ==> i < r.pos <= |b|
  {
    if i >= |b| then Err(Truncated)
    else if b[i] == SMALL_ATOM_UTF8_EXT || b[i] == SMALL_ATOM_EXT then
      if i + 2 > |b| then Err(Truncated) else Slice(b, i + 2, b[i + 1])
    else if b[i] == ATOM_UTF8_EXT || b[i] == ATOM_EXT then
      if i + 3 > |b| then Err(Truncated) else Slice(b, i + 3, Get16(b, i + 1))
    else Err(Unsupported)
  }

  function Slice(b: Bytes, i: nat, n: nat): (r: Decoded<Bytes>)
    requires i <= |b|
    ensures r.Ok? ==> r.pos == i + n <= |b|
  {
    if i + n <= |b| then Ok(b[i..i + n], i + n) else Err(Truncated)
  }

  /** `true` and `false` become booleans, every other name an atom. */
  function TermOfName(n: Name): Option<Term> {
    if n == TRUE_NAME then Some(Bool(true))
    else if n == FALSE_NAME then Some(Bool(false))
    else if ValidName(n) then Some(Atom(n))
    else None
  }

  function DecodeAtom(b: Bytes, i: nat): (r: Decoded<Term>)
    ensures r.Ok? ==> i < r.pos <= |b|
  {
    match AtomName(b, i)
    case Err(e) => Err(e)
    case Ok(n, pos) =>
      match TermOfName(n)
      case None => Err(NameTooLong)
      case Some(t) => Ok(t, pos)
  }

  /** Sign and digits of a big integer that does not fit 64 bits are rejected. */
  function BigValue(sign: Byte, d: Bytes): Option<int> {
    var u := MagnitudeValue(d);
    if sign != 0 then if u > 0x8000_0000_0000_0000 then None else Some(0 - u)
    else if u > LONG_MAX then None else Some(u)
  }

  /** A big integer whose sign byte is at `i`, followed by `n` digits. */
  function DecodeBig(b: Bytes, i: nat, n: nat): (r: Decoded<Term>)
    ensures r.Ok? ==> i < r.pos <= |b|
  {
    if i + 1 + n > |b| then Err(Truncated)
    else
      match BigValue(b[i], b[i + 1..i + 1 + n])
      case None => Err(IntegerTooBig)
      case Some(v) => Ok(Long(v), i + 1 + n)
  }

  function DecodeNode(b: Bytes, i: nat): (r: Decoded<Name>)
    ensures r.Ok? ==> i < r.pos <= |b|
  {
    match AtomName(b, i)
    case Err(e) => Err(e)
    case Ok(n, pos) => if ValidNode(n) then Ok(n, pos) else Err(BadNode)
  }

  function DecodePid(b: Bytes, i: nat): (r: Decoded<Term>)
    requires i < |b|
    ensures r.Ok? ==> i < r.pos <= |b|
  {
    match DecodeNode(b, i + 1)
    case Err(e) => Err(e)
    case Ok(n, p) =>
      var wide := b[i] == NEW_PID_EXT;
      if p + 8 + (if wide then 4 else 1) > |b| then Err(Truncated)
      else
        var c := if wide then Get32(b, p + 8) else b[p + 8] % 4;
        Ok(Pid(n, Get32(b, p), Get32(b, p + 4), c), p + 8 + (if wide then 4 else 1))
  }

  /** `n` words at `i`, each reduced modulo `limit`. */
  function Words(b: Bytes, i: nat, n: nat, limit: nat): (r: seq<nat>)
    requires i + 4 * n <= |b| && limit > 0
    ensures |r| == n
    decreases n
  {
    if n == 0 then [] else [Get32(b, i) % limit] + Words(b, i + 4, n - 1, limit)
  }

  /** The old single-word form never satisfies the constructor's demand for three ids. */
  function DecodeRef(b: Bytes, i: nat): (r: Decoded<Term>)
    requires i < |b|
    ensures r.Ok? ==> i < r.pos <= |b|
  {
    if b[i] == REFERENCE_EXT then Err(BadRefCount)
    else if i + 3 > |b| then Err(Truncated)
    else
      var count := Get16(b, i + 1);
      if count < MIN_REF_IDS || count > MAX_REF_IDS then Err(BadRefCount)
      else
        match DecodeNode(b, i + 3)
        case Err(e) => Err(e)
        case Ok(n, p) =>
          var wide := b[i] == NEWER_REFERENCE_EXT;
          var q := p + (if wide then 4 else 1);
          if q + 4 * count > |b| then Err(Truncated)
          else
            var c := if wide then Get32(b, p) else b[p] % 4;
            Ok(Ref(n, Words(b, q, count, if wide then 0x1_0000_0000 else 0x4_0000), c), q + 4 * count)
  }

  /** Everything but tuples and non-empty lists, from its tag byte on. */
  function DecodeSimple(b: Bytes, i: nat): (r: Decoded<Term>)
    ensures r.Ok? ==> i < r.pos <= |b|
  {
    if i >= |b| then Err(EmptyTerm)
    else if b[i] in {ATOM_EXT, SMALL_ATOM_EXT, ATOM_UTF8_EXT, SMALL_ATOM_UTF8_EXT} then DecodeAtom(b, i)
    else if b[i] == NIL_EXT then Ok(List([]), i + 1)
    else if b[i] == STRING_EXT then
      if i + 3 > |b| then Err(Truncated)
      else
        match Slice(b, i + 3, Get16(b, i + 1))
        case Err(e) => Err(e)
        case Ok(s, pos) => Ok(Str(s), pos)
    else if b[i] == SMALL_INTEGER_EXT then
      if i + 2 > |b| then Err(Truncated) else Ok(Long(b[i + 1]), i + 2)
    else if b[i] == INTEGER_EXT then
      if i + 5 > |b| then Err(Truncated) else Ok(Long(Signed32(Get32(b, i + 1))), i + 5)
    else if b[i] == SMALL_BIG_EXT then
      if i + 2 > |b| then Err(Truncated) else DecodeBig(b, i + 2, b[i + 1])
    else if b[i] == LARGE_BIG_EXT then
      if i + 5 > |b| then Err(Truncated) else DecodeBig(b, i + 5, Get32(b, i + 1))
    else if b[i] == BINARY_EXT then
      if i + 5 > |b| then Err(Truncated)
      else
        match Slice(b, i + 5, Get32(b, i + 1))
        case Err(e) => Err(e)
        case Ok(d, pos) => Ok(Binary(d), pos)
    else if b[i] == PID_EXT || b[i] == NEW_PID_EXT then DecodePid(b, i)
    else if b[i] in {REFERENCE_EXT, NEW_REFERENCE_EXT, NEWER_REFERENCE_EXT} then DecodeRef(b, i)
    else Err(Unsupported)
  }

  /** A decoder of simple terms: what it makes of the buffer at each position. */
  type SimpleDecoder = nat -> Decoded<Term>

  ghost predicate Advances(b: Bytes, simple: SimpleDecoder) {
    forall j: nat :: simple(j).Ok? ==> j < simple(j).pos <= |b|
  }

  /** The nesting structure of `decode`, over any decoder of simple terms. */
  function TermAt(b: Bytes, simple: SimpleDecoder, i: nat): (r: Decoded<Term>)
    requires i <= |b| && Advances(b, simple)
    ensures r.Ok? ==> i < r.pos <= |b|
    decreases |b| - i, 0
  {
    if i == |b| then Err(EmptyTerm)
    else if b[i] == SMALL_TUPLE_EXT || b[i] == LARGE_TUPLE_EXT then TupleAt(b, simple, i)
    else if b[i] == LIST_EXT then ListAt(b, simple, i)
    else simple(i)
  }

  function TupleAt(b: Bytes, simple: SimpleDecoder, i: nat): (r: Decoded<Term>)
    requires i < |b| && Advances(b, simple)
    ensures r.Ok? ==> i < r.pos <= |b|
    decreases |b| - i - 1, 3
  {
    var hdr := if b[i] == SMALL_TUPLE_EXT then 2 else 5;
    if i + hdr > |b| then Err(Truncated)
    else
      var n := if hdr == 2 then b[i + 1] else Get32(b, i + 1);
      match TermsAt(b, simple, i + hdr, n, [])
      case Err(e) => Err(e)
      case Ok(v, pos) => Ok(Tuple(v), pos)
  }

  /** A list of length zero is complete after its header; any other must end in NIL_EXT. */
  function ListAt(b: Bytes, simple: SimpleDecoder, i: nat): (r: Decoded<Term>)
    requires i < |b| && Advances(b, simple)
    ensures r.Ok? ==> i < r.pos <= |b|
    decreases |b| - i - 1, 3
  {
    if i + 5 > |b| then Err(Truncated)
    else if Get32(b, i + 1) == 0 then Ok(List([]), i + 5)
    else
      match TermsAt(b, simple, i + 5, Get32(b, i + 1), [])
      case Err(e) => Err(e)
      case Ok(v, pos) =>
        if pos >= |b| then Err(Truncated)
        else if b[pos] != NIL_EXT then Err(NotNil)
        else Ok(List(v), pos + 1)
  }

  /** `n` terms from `i` on, after those already decoded. */
  function TermsAt(b: Bytes, simple: SimpleDecoder, i: nat, n: nat, acc: seq<Term>): (r: Decoded<seq<Term>>)
    requires i <= |b| && Advances(b, simple)
    ensures r.Ok? ==> i <= r.pos <= |b|
    decreases |b| - i, 1
  {
    if n == 0 then Ok(acc, i)
    else
      match TermAt(b, simple, i)
      case Err(e) => Err(e)
      case Ok(t, pos) => TermsAt(b, simple, pos, n - 1, acc + [t])
  }

  function Simple(b: Bytes): SimpleDecoder {
    (j: nat) => DecodeSimple(b, j)
  }

  /** `eterm::decode` at offset `i`. */
  function Decode(b: Bytes, i: nat): (r: Decoded<Term>)
    requires i <= |b|
    ensures r.Ok? ==> i < r.pos <= |b|
  {
    TermAt(b, Simple(b), i)
  }
}
