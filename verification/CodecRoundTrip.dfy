/**
 * Decoding undoes encoding up to a normal form, at any offset and whatever surrounds
 * the bytes; the normal form is encoded by the same bytes, so it is exactly what the
 * wire cannot tell apart.
 */
module CodecRoundTrip {
  import opened Codec
  import opened Slices
  import opened Terms

  /** What comes back: no empty or overlong string, no atom named `true` or `false`. */
  function Norm(t: Term): Term
    decreases t, 0
  {
    match t
    case Atom(n) => if n == TRUE_NAME then Bool(true) else if n == FALSE_NAME then Bool(false) else t
    case Str(s) => if s == [] then List([]) else if |s| <= 0xffff then t else List(Longs(s))
    case Tuple(es) => Tuple(NormAll(es))
    case List(es) => List(NormAll(es))
    case _ => t
  }

  function NormAll(ts: seq<Term>): (r: seq<Term>)
    ensures |r| == |ts|
    decreases ts, 1
  {
    if ts == [] then [] else [Norm(ts[0])] + NormAll(ts[1..])
  }

  function Longs(s: Bytes): (r: seq<Term>)
    ensures |r| == |s|
  {
    if s == [] then [] else [Long(s[0])] + Longs(s[1..])
  }

  lemma {:induction false} LongsAreNormal(s: Bytes)
    ensures NormAll(Longs(s)) == Longs(s)
  {
    if s != [] {
      LongsAreNormal(s[1..]);
      assert Longs(s)[1..] == Longs(s[1..]);
    }
  }

  /** Normalising twice changes nothing. */
  lemma {:induction false} NormIsIdempotent(t: Term)
    ensures Norm(Norm(t)) == Norm(t)
    decreases t, 0
  {
    match t
    case Str(s) => LongsAreNormal(s);
    case Tuple(es) => NormAllIsIdempotent(es);
    case List(es) => NormAllIsIdempotent(es);
    case _ =>
  }

  lemma {:induction false} NormAllIsIdempotent(ts: seq<Term>)
    ensures NormAll(NormAll(ts)) == NormAll(ts)
    decreases ts, 1
  {
    if ts != [] {
      NormIsIdempotent(ts[0]);
      NormAllIsIdempotent(ts[1..]);
      assert NormAll(ts)[1..] == NormAll(ts[1..]);
    }
  }

  // ----- integers in the buffer -----

  lemma Get16Reads(b: Bytes, i: nat, n: nat)
    requires n < 0x1_0000 && Matches(b, i, Be16(n))
    ensures Get16(b, i) == n
  {
    MatchesPair(b, i, n / 256, n % 256);
  }

  lemma Get32Reads(b: Bytes, i: nat, n: nat)
    requires n < 0x1_0000_0000 && Matches(b, i, Be32(n))
    ensures Get32(b, i) == n
  {
    MatchesParts(b, i, Be16(n / 0x1_0000), Be16(n % 0x1_0000));
    Get16Reads(b, i, n / 0x1_0000);
    Get16Reads(b, i + 2, n % 0x1_0000);
  }

  lemma {:induction false} MagnitudeReads(n: nat)
    ensures MagnitudeValue(Magnitude(n)) == n
  {
    if n > 0 {
      MagnitudeReads(n / 256);
      assert Magnitude(n)[1..] == Magnitude(n / 256);
    }
  }

  lemma {:induction false} WordsRead(b: Bytes, i: nat, ids: seq<nat>)
    requires AllWords(ids) && Matches(b, i, EncodeWords(ids))
    ensures Words(b, i, |ids|, 0x1_0000_0000) == ids
    decreases |ids|
  {
    if ids != [] {
      var x, rest := ids[0], ids[1..];
      MatchesParts(b, i, Be32(x), EncodeWords(rest));
      FirstWord(b, i, x, |rest|);
      WordsRead(b, i + 4, rest);
      assert ids == [x] + rest;
    }
  }

  lemma FirstWord(b: Bytes, i: nat, x: nat, n: nat)
    requires x < 0x1_0000_0000 && Matches(b, i, Be32(x)) && i + 4 + 4 * n <= |b|
    ensures Words(b, i, n + 1, 0x1_0000_0000) == [x] + Words(b, i + 4, n, 0x1_0000_0000)
  {
    Get32Reads(b, i, x);
  }

  // ----- simple terms -----

  lemma LongDecodes(b: Bytes, i: nat, v: int)
    requires LONG_MIN <= v <= LONG_MAX && Matches(b, i, EncodeLong(v))
    ensures DecodeSimple(b, i) == Ok(Long(v), i + |EncodeLong(v)|)
  {
    if 0 <= v < 256 {
      MatchesPair(b, i, SMALL_INTEGER_EXT, v);
    } else if ERL_MIN <= v <= ERL_MAX {
      var u := if v < 0 then v + 0x1_0000_0000 else v;
      MatchesParts(b, i, [INTEGER_EXT], Be32(u));
      MatchesAt(b, i, [INTEGER_EXT], 0);
      Get32Reads(b, i + 1, u);
    } else {
      BigDecodes(b, i, v);
    }
  }

  lemma BigDecodes(b: Bytes, i: nat, v: int)
    requires LONG_MIN <= v <= LONG_MAX && !(ERL_MIN <= v <= ERL_MAX)
    requires Matches(b, i, EncodeLong(v))
    ensures DecodeSimple(b, i) == Ok(Long(v), i + |EncodeLong(v)|)
  {
    var d := Magnitude(Abs(v));
    MagnitudeFits(Abs(v), 8);
    var sign: Byte := if v < 0 then 1 else 0;
    var hdr := [SMALL_BIG_EXT, |d|, sign];
    MatchesParts(b, i, hdr, d);
    MatchesAt(b, i, hdr, 0);
    MatchesAt(b, i, hdr, 1);
    MatchesAt(b, i, hdr, 2);
    MatchesSlice(b, i + 3, d);
    MagnitudeReads(Abs(v));
  }

  lemma AtomNameDecodes(b: Bytes, i: nat, n: Name)
    requires ValidName(n) && Matches(b, i, EncodeAtom(n))
    ensures AtomName(b, i) == Ok(n, i + |EncodeAtom(n)|)
    ensures b[i] in {ATOM_UTF8_EXT, SMALL_ATOM_UTF8_EXT}
  {
    if |n| > 255 {
      ThreeParts(b, i, [ATOM_UTF8_EXT], Be16(|n|), n);
      MatchesAt(b, i, [ATOM_UTF8_EXT], 0);
      Get16Reads(b, i + 1, |n|);
      MatchesSlice(b, i + 3, n);
    } else {
      MatchesParts(b, i, [SMALL_ATOM_UTF8_EXT, |n|], n);
      MatchesPair(b, i, SMALL_ATOM_UTF8_EXT, |n|);
      MatchesSlice(b, i + 2, n);
    }
  }

  lemma NodeDecodes(b: Bytes, i: nat, n: Name)
    requires ValidNode(n) && Matches(b, i, EncodeNode(n))
    ensures DecodeNode(b, i) == Ok(n, i + 3 + |n|)
  {
    ThreeParts(b, i, [ATOM_UTF8_EXT], Be16(|n|), n);
    MatchesAt(b, i, [ATOM_UTF8_EXT], 0);
    Get16Reads(b, i + 1, |n|);
    MatchesSlice(b, i + 3, n);
  }

  lemma StringDecodes(b: Bytes, i: nat, s: Bytes)
    requires 0 < |s| <= 0xffff && Matches(b, i, EncodeString(s))
    ensures DecodeSimple(b, i) == Ok(Str(s), i + |EncodeString(s)|)
  {
    ThreeParts(b, i, [STRING_EXT], Be16(|s|), s);
    MatchesAt(b, i, [STRING_EXT], 0);
    Get16Reads(b, i + 1, |s|);
    MatchesSlice(b, i + 3, s);
  }

  lemma BinaryDecodes(b: Bytes, i: nat, d: Bytes)
    requires |d| < 0x1_0000_0000 && Matches(b, i, [BINARY_EXT] + Be32(|d|) + d)
    ensures DecodeSimple(b, i) == Ok(Binary(d), i + 5 + |d|)
  {
    ThreeParts(b, i, [BINARY_EXT], Be32(|d|), d);
    MatchesAt(b, i, [BINARY_EXT], 0);
    Get32Reads(b, i + 1, |d|);
    MatchesSlice(b, i + 5, d);
  }

  lemma PidDecodes(b: Bytes, i: nat, t: Term)
    requires t.Pid? && Encodable(t) && Matches(b, i, Encode(t))
    ensures DecodeSimple(b, i) == Ok(t, i + |Encode(t)|)
  {
    var ids := [t.id, t.serial, t.creation];
    ThreeParts(b, i, [NEW_PID_EXT], EncodeNode(t.node), EncodeWords(ids));
    MatchesAt(b, i, [NEW_PID_EXT], 0);
    NodeDecodes(b, i + 1, t.node);
    var p := i + 4 + |t.node|;
    WordsRead(b, p, ids);
    ThreeWords(b, p, ids);
  }

  lemma ThreeWords(b: Bytes, p: nat, ids: seq<nat>)
    requires |ids| == 3 && p + 12 <= |b| && Words(b, p, 3, 0x1_0000_0000) == ids
    ensures Get32(b, p) == ids[0] && Get32(b, p + 4) == ids[1] && Get32(b, p + 8) == ids[2]
  {
    assert Words(b, p, 3, 0x1_0000_0000)[0] == Get32(b, p);
    assert Words(b, p + 4, 2, 0x1_0000_0000) == ids[1..];
    assert Words(b, p + 8, 1, 0x1_0000_0000) == ids[2..];
  }

  lemma RefParts(b: Bytes, i: nat, t: Term)
    requires t.Ref? && Encodable(t) && Matches(b, i, Encode(t))
    ensures var n, p := |t.ids|, i + 6 + |t.node|;
      && p + 4 + 4 * n == i + |Encode(t)| <= |b|
      && b[i] == NEWER_REFERENCE_EXT && Get16(b, i + 1) == n
      && DecodeNode(b, i + 3) == Ok(t.node, p)
      && Get32(b, p) == t.creation && Words(b, p + 4, n, 0x1_0000_0000) == t.ids
  {
    var n, p := |t.ids|, i + 6 + |t.node|;
    FourParts(b, i, [NEWER_REFERENCE_EXT], Be16(n), EncodeNode(t.node), EncodeWords([t.creation] + t.ids));
    MatchesAt(b, i, [NEWER_REFERENCE_EXT], 0);
    Get16Reads(b, i + 1, n);
    NodeDecodes(b, i + 3, t.node);
    assert ([t.creation] + t.ids)[1..] == t.ids;
    MatchesParts(b, p, Be32(t.creation), EncodeWords(t.ids));
    Get32Reads(b, p, t.creation);
    WordsRead(b, p + 4, t.ids);
  }

  lemma RefDecodes(b: Bytes, i: nat, t: Term)
    requires t.Ref? && Encodable(t) && Matches(b, i, Encode(t))
    ensures DecodeSimple(b, i) == Ok(t, i + |Encode(t)|)
  {
    RefParts(b, i, t);
  }

  predicate IsSimple(t: Term) {
    match t
    case Tuple(_) => false
    case List(es) => es == []
    case Str(s) => |s| <= 0xffff
    case _ => true
  }

  lemma SimpleDecodes(b: Bytes, i: nat, t: Term)
    requires Encodable(t) && IsSimple(t) && Matches(b, i, Encode(t))
    ensures DecodeSimple(b, i) == Ok(Norm(t), i + |Encode(t)|)
  {
    match t
    case Long(v) => LongDecodes(b, i, v);
    case Bool(f) => ShortNamesAreValid(BoolName(f)); AtomNameDecodes(b, i, BoolName(f));
    case Atom(n) => AtomNameDecodes(b, i, n);
    case Str(s) => if s == [] { MatchesAt(b, i, [NIL_EXT], 0); } else { StringDecodes(b, i, s); }
    case Binary(d) => BinaryDecodes(b, i, d);
    case Pid(_, _, _, _) => PidDecodes(b, i, t);
    case Ref(_, _, _) => RefDecodes(b, i, t);
    case List(_) => MatchesAt(b, i, [NIL_EXT], 0);
  }

  // ----- nested terms -----

  ghost predicate SimpleHere(t: Term, b: Bytes, i: nat) {
    Encodable(t) && IsSimple(t) && Matches(b, i, Encode(t))
  }

  /** All that nesting asks of the decoder of simple terms. */
  ghost predicate DecodesSimple(b: Bytes, simple: SimpleDecoder) {
    forall t, i: nat :: SimpleHere(t, b, i) ==> simple(i) == Ok(Norm(t), i + |Encode(t)|)
  }

  lemma SimpleTag(t: Term)
    requires Encodable(t) && IsSimple(t)
    ensures Encode(t) != [] && Encode(t)[0] !in {SMALL_TUPLE_EXT, LARGE_TUPLE_EXT, LIST_EXT}
  {
  }

  lemma SimpleAt(t: Term, b: Bytes, simple: SimpleDecoder, i: nat)
    requires Advances(b, simple) && DecodesSimple(b, simple) && SimpleHere(t, b, i)
    ensures TermAt(b, simple, i) == Ok(Norm(t), i + |Encode(t)|)
  {
    SimpleTag(t);
    MatchesAt(b, i, Encode(t), 0);
  }

  lemma NextTerm(b: Bytes, simple: SimpleDecoder, i: nat, n: nat, acc: seq<Term>, t: Term, pos: nat)
    requires Advances(b, simple) && i <= |b| && n > 0 && TermAt(b, simple, i) == Ok(t, pos)
    ensures TermsAt(b, simple, i, n, acc) == TermsAt(b, simple, pos, n - 1, acc + [t])
  {
  }

  /** The characters of an overlong string come back as small integers. */
  lemma {:induction false} SmallIntegersDecode(
      s: Bytes, b: Bytes, simple: SimpleDecoder, i: nat, acc: seq<Term>, v: seq<Term>)
    requires Advances(b, simple) && DecodesSimple(b, simple) && Matches(b, i, SmallIntegers(s))
    requires v == acc + Longs(s)
    ensures TermsAt(b, simple, i, |s|, acc) == Ok(v, i + 2 * |s|)
    decreases |s|
  {
    if s == [] {
      assert v == acc;
    } else {
      MatchesParts(b, i, [SMALL_INTEGER_EXT, s[0]], SmallIntegers(s[1..]));
      assert SimpleHere(Long(s[0]), b, i);
      SimpleAt(Long(s[0]), b, simple, i);
      NextTerm(b, simple, i, |s|, acc, Long(s[0]), i + 2);
      OneMore(acc, Longs(s));
      SmallIntegersDecode(s[1..], b, simple, i + 2, acc + [Long(s[0])], v);
    }
  }

  lemma ListBody(b: Bytes, i: nat, n: nat, body: Bytes)
    requires n < 0x1_0000_0000 && Matches(b, i, [LIST_EXT] + Be32(n) + body + [NIL_EXT])
    ensures Matches(b, i + 5, body)
  {
    FourParts(b, i, [LIST_EXT], Be32(n), body, [NIL_EXT]);
  }

  lemma ListFrame(b: Bytes, simple: SimpleDecoder, i: nat, n: nat, body: Bytes, v: seq<Term>)
    requires Advances(b, simple) && 0 < n < 0x1_0000_0000
    requires Matches(b, i, [LIST_EXT] + Be32(n) + body + [NIL_EXT])
    requires TermsAt(b, simple, i + 5, n, []) == Ok(v, i + 5 + |body|)
    ensures TermAt(b, simple, i) == Ok(List(v), i + 6 + |body|)
  {
    FourParts(b, i, [LIST_EXT], Be32(n), body, [NIL_EXT]);
    MatchesAt(b, i, [LIST_EXT], 0);
    Get32Reads(b, i + 1, n);
    MatchesAt(b, i + 5 + |body|, [NIL_EXT], 0);
  }

  lemma TupleFrame(b: Bytes, simple: SimpleDecoder, i: nat, n: nat, v: seq<Term>, pos: nat)
    requires Advances(b, simple) && n <= INT_MAX && Matches(b, i, TupleHeader(n))
    requires TermsAt(b, simple, i + |TupleHeader(n)|, n, []) == Ok(v, pos)
    ensures TermAt(b, simple, i) == Ok(Tuple(v), pos)
  {
    if n <= 255 {
      MatchesPair(b, i, SMALL_TUPLE_EXT, n);
    } else {
      MatchesParts(b, i, [LARGE_TUPLE_EXT], Be32(n));
      MatchesAt(b, i, [LARGE_TUPLE_EXT], 0);
      Get32Reads(b, i + 1, n);
    }
  }

  lemma OverlongStringDecodes(s: Bytes, b: Bytes, simple: SimpleDecoder, i: nat)
    requires Advances(b, simple) && DecodesSimple(b, simple)
    requires 0xffff < |s| <= INT_MAX && Matches(b, i, EncodeString(s))
    ensures TermAt(b, simple, i) == Ok(List(Longs(s)), i + |EncodeString(s)|)
  {
    var v, body := Longs(s), SmallIntegers(s);
    assert EncodeString(s) == [LIST_EXT] + Be32(|s|) + body + [NIL_EXT];
    assert [] + v == v;
    ListBody(b, i, |s|, body);
    SmallIntegersDecode(s, b, simple, i + 5, [], v);
    ListFrame(b, simple, i, |s|, body, v);
  }

  lemma {:induction false} TermDecodes(t: Term, b: Bytes, simple: SimpleDecoder, i: nat)
    requires Advances(b, simple) && DecodesSimple(b, simple)
    requires Encodable(t) && Matches(b, i, Encode(t))
    ensures TermAt(b, simple, i) == Ok(Norm(t), i + |Encode(t)|)
    decreases t, 0
  {
    if IsSimple(t) {
      SimpleAt(t, b, simple, i);
    } else if t.Tuple? {
      var v := NormAll(t.elems);
      assert [] + v == v;
      MatchesParts(b, i, TupleHeader(|t.elems|), EncodeAll(t.elems));
      TermsDecode(t.elems, b, simple, i + |TupleHeader(|t.elems|)|, [], v);
      TupleFrame(b, simple, i, |t.elems|, v, i + |Encode(t)|);
    } else if t.List? {
      var v := NormAll(t.elems);
      assert [] + v == v;
      ListBody(b, i, |t.elems|, EncodeAll(t.elems));
      TermsDecode(t.elems, b, simple, i + 5, [], v);
      ListFrame(b, simple, i, |t.elems|, EncodeAll(t.elems), v);
    } else {
      OverlongStringDecodes(t.chars, b, simple, i);
    }
  }

  lemma {:induction false} TermsDecode(
      ts: seq<Term>, b: Bytes, simple: SimpleDecoder, i: nat, acc: seq<Term>, v: seq<Term>)
    requires Advances(b, simple) && DecodesSimple(b, simple)
    requires (forall t | t in ts :: Encodable(t)) && Matches(b, i, EncodeAll(ts))
    requires v == acc + NormAll(ts)
    ensures TermsAt(b, simple, i, |ts|, acc) == Ok(v, i + |EncodeAll(ts)|)
    decreases ts, 1
  {
    if ts == [] {
      assert v == acc;
    } else {
      var w := Encode(ts[0]);
      MatchesParts(b, i, w, EncodeAll(ts[1..]));
      TermDecodes(ts[0], b, simple, i);
      NextTerm(b, simple, i, |ts|, acc, Norm(ts[0]), i + |w|);
      OneMore(acc, NormAll(ts));
      TermsDecode(ts[1..], b, simple, i + |w|, acc + [Norm(ts[0])], v);
    }
  }

  // ----- the theorems -----

  /** Wherever the encoding of a term stands in a buffer, decoding there gives its normal form. */
  lemma DecodeUndoesEncode(t: Term, b: Bytes, i: nat)
    requires Encodable(t) && Matches(b, i, Encode(t))
    ensures Decode(b, i) == Ok(Norm(t), i + |Encode(t)|)
  {
    forall u, j: nat | SimpleHere(u, b, j) ensures Simple(b)(j) == Ok(Norm(u), j + |Encode(u)|) {
      SimpleDecodes(b, j, u);
    }
    TermDecodes(t, b, Simple(b), i);
  }

  /** A term and its normal form are the same bytes. */
  lemma {:induction false} NormKeepsBytes(t: Term)
    requires Encodable(t)
    ensures Encodable(Norm(t)) && Encode(Norm(t)) == Encode(t)
    decreases t, 0
  {
    match t
    case Str(s) => LongsKeepBytes(s);
    case Tuple(es) => NormAllKeepsBytes(es);
    case List(es) => NormAllKeepsBytes(es);
    case _ =>
  }

  lemma {:induction false} NormAllKeepsBytes(ts: seq<Term>)
    requires forall t | t in ts :: Encodable(t)
    ensures forall t | t in NormAll(ts) :: Encodable(t)
    ensures EncodeAll(NormAll(ts)) == EncodeAll(ts)
    decreases ts, 1
  {
    if ts != [] {
      NormKeepsBytes(ts[0]);
      NormAllKeepsBytes(ts[1..]);
      assert NormAll(ts)[1..] == NormAll(ts[1..]);
    }
  }

  lemma {:induction false} LongsKeepBytes(s: Bytes)
    ensures forall t | t in Longs(s) :: Encodable(t)
    ensures EncodeAll(Longs(s)) == SmallIntegers(s)
  {
    if s != [] {
      LongsKeepBytes(s[1..]);
      assert Longs(s)[1..] == Longs(s[1..]);
    }
  }

  /** Two terms are the same on the wire exactly when they have the same normal form. */
  lemma SameBytesIffSameNorm(t: Term, u: Term)
    requires Encodable(t) && Encodable(u)
    ensures Encode(t) == Encode(u) <==> Norm(t) == Norm(u)
  {
    if Encode(t) == Encode(u) {
      DecodeUndoesEncode(t, Encode(t), 0);
      DecodeUndoesEncode(u, Encode(u), 0);
    }
    if Norm(t) == Norm(u) {
      NormKeepsBytes(t);
      NormKeepsBytes(u);
    }
  }
}
