/**
 * The codec as the source runs it: `encode` writes into a preallocated buffer in place
 * and advances an index, `decode` loops over a buffer. Both are proved against `Codec`.
 */
module CodecBuffer {
  import opened Codec
  import opened Slices
  import opened Terms

  /** `now` is `was` with `w` written at `i`, and nothing else touched. */
  ghost predicate Written(now: Bytes, was: Bytes, i: nat, w: Bytes) {
    && |now| == |was| && Matches(now, i, w)
    && forall k | 0 <= k < |now| && !(i <= k < i + |w|) :: now[k] == was[k]
  }

  lemma WrittenThen(b0: Bytes, b1: Bytes, b2: Bytes, i: nat, u: Bytes, v: Bytes)
    requires Written(b1, b0, i, u) && Written(b2, b1, i + |u|, v)
    ensures Written(b2, b0, i, u + v)
  {
    var w := u + v;
    forall k | 0 <= k < |w| ensures b2[i + k] == w[k] {
      if k < |u| {
        assert b2[i + k] == b1[i + k] == u[k];
      } else {
        assert b2[i + |u| + (k - |u|)] == v[k - |u|];
      }
    }
  }

  // ----- writing -----

  method PutBytes(buf: array<Byte>, s: nat, w: Bytes) returns (s': nat)
    requires s + |w| <= buf.Length
    modifies buf
    ensures s' == s + |w| && Written(buf[..], old(buf[..]), s, w)
  {
    for k := 0 to |w|
      invariant forall j | 0 <= j < k :: buf[s + j] == w[j]
      invariant forall j | 0 <= j < buf.Length && !(s <= j < s + k) :: buf[j] == old(buf[j])
    {
      buf[s + k] := w[k];
    }
    s' := s + |w|;
  }

  method Put8(buf: array<Byte>, s: nat, n: Byte) returns (s': nat)
    requires s < buf.Length
    modifies buf
    ensures s' == s + 1 && Written(buf[..], old(buf[..]), s, [n])
  {
    buf[s] := n;
    s' := s + 1;
  }

  method Put16(buf: array<Byte>, s: nat, n: nat) returns (s': nat)
    requires n < 0x1_0000 && s + 2 <= buf.Length
    modifies buf
    ensures s' == s + 2 && Written(buf[..], old(buf[..]), s, Be16(n))
  {
    s' := PutBytes(buf, s, [n / 256, n % 256]);
  }

  method Put32(buf: array<Byte>, s: nat, n: nat) returns (s': nat)
    requires n < 0x1_0000_0000 && s + 4 <= buf.Length
    modifies buf
    ensures s' == s + 4 && Written(buf[..], old(buf[..]), s, Be32(n))
  {
    ghost var b0 := buf[..];
    s' := Put16(buf, s, n / 0x1_0000);
    ghost var b1 := buf[..];
    s' := Put16(buf, s', n % 0x1_0000);
    WrittenThen(b0, b1, buf[..], s, Be16(n / 0x1_0000), Be16(n % 0x1_0000));
  }

  method WriteAtom(n: Name, buf: array<Byte>, idx: nat) returns (idx': nat)
    requires ValidName(n) && idx + |EncodeAtom(n)| <= buf.Length
    modifies buf
    ensures idx' == idx + |EncodeAtom(n)| && Written(buf[..], old(buf[..]), idx, EncodeAtom(n))
  {
    ghost var b0 := buf[..];
    if |n| > 255 {
      idx' := Put8(buf, idx, ATOM_UTF8_EXT);
      ghost var b1 := buf[..];
      idx' := Put16(buf, idx', |n|);
      WrittenThen(b0, b1, buf[..], idx, [ATOM_UTF8_EXT], Be16(|n|));
    } else {
      idx' := Put8(buf, idx, SMALL_ATOM_UTF8_EXT);
      ghost var b1 := buf[..];
      idx' := Put8(buf, idx', |n|);
      WrittenThen(b0, b1, buf[..], idx, [SMALL_ATOM_UTF8_EXT], [|n|]);
      assert [SMALL_ATOM_UTF8_EXT] + [|n|] == [SMALL_ATOM_UTF8_EXT, |n|];
    }
    ghost var b2 := buf[..];
    ghost var hdr := if |n| > 255 then [ATOM_UTF8_EXT] + Be16(|n|) else [SMALL_ATOM_UTF8_EXT, |n|];
    idx' := PutBytes(buf, idx', n);
    WrittenThen(b0, b2, buf[..], idx, hdr, n);
  }

  method WriteNode(n: Name, buf: array<Byte>, idx: nat) returns (idx': nat)
    requires ValidNode(n) && idx + |EncodeNode(n)| <= buf.Length
    modifies buf
    ensures idx' == idx + |EncodeNode(n)| && Written(buf[..], old(buf[..]), idx, EncodeNode(n))
  {
    ghost var b0 := buf[..];
    idx' := Put8(buf, idx, ATOM_UTF8_EXT);
    ghost var b1 := buf[..];
    idx' := Put16(buf, idx', |n|);
    ghost var b2 := buf[..];
    WrittenThen(b0, b1, b2, idx, [ATOM_UTF8_EXT], Be16(|n|));
    idx' := PutBytes(buf, idx', n);
    WrittenThen(b0, b2, buf[..], idx, [ATOM_UTF8_EXT] + Be16(|n|), n);
  }

  method WriteWords(ids: seq<nat>, buf: array<Byte>, idx: nat) returns (idx': nat)
    requires AllWords(ids) && idx + 4 * |ids| <= buf.Length
    modifies buf
    ensures idx' == idx + 4 * |ids| && Written(buf[..], old(buf[..]), idx, EncodeWords(ids))
  {
    ghost var b0 := buf[..];
    idx' := idx;
    for k := 0 to |ids|
      invariant idx' == idx + 4 * k && Written(buf[..], b0, idx, EncodeWords(ids[..k]))
    {
      ghost var b1 := buf[..];
      idx' := Put32(buf, idx', ids[k]);
      WrittenThen(b0, b1, buf[..], idx, EncodeWords(ids[..k]), Be32(ids[k]));
      assert ids[..k + 1] == ids[..k] + [ids[k]];
      WordsAppend(ids[..k], ids[k]);
    }
    assert ids[..|ids|] == ids;
  }

  lemma {:induction false} WordsAppend(ids: seq<nat>, x: nat)
    requires AllWords(ids) && x < 0x1_0000_0000
    ensures AllWords(ids + [x]) && EncodeWords(ids + [x]) == EncodeWords(ids) + Be32(x)
  {
    if ids != [] {
      WordsAppend(ids[1..], x);
      assert (ids + [x])[1..] == ids[1..] + [x];
    }
  }

  method WriteBinary(d: Bytes, buf: array<Byte>, idx: nat) returns (idx': nat)
    requires |d| < 0x1_0000_0000 && idx + 5 + |d| <= buf.Length
    modifies buf
    ensures idx' == idx + 5 + |d|
    ensures Written(buf[..], old(buf[..]), idx, [BINARY_EXT] + Be32(|d|) + d)
  {
    ghost var b0 := buf[..];
    idx' := Put8(buf, idx, BINARY_EXT);
    ghost var b1 := buf[..];
    idx' := Put32(buf, idx', |d|);
    ghost var b2 := buf[..];
    WrittenThen(b0, b1, b2, idx, [BINARY_EXT], Be32(|d|));
    idx' := PutBytes(buf, idx', d);
    WrittenThen(b0, b2, buf[..], idx, [BINARY_EXT] + Be32(|d|), d);
  }

  method WritePid(t: Term, buf: array<Byte>, idx: nat) returns (idx': nat)
    requires t.Pid? && Encodable(t) && idx + |Encode(t)| <= buf.Length
    modifies buf
    ensures idx' == idx + |Encode(t)| && Written(buf[..], old(buf[..]), idx, Encode(t))
  {
    ghost var b0 := buf[..];
    idx' := Put8(buf, idx, NEW_PID_EXT);
    ghost var b1 := buf[..];
    idx' := WriteNode(t.node, buf, idx');
    ghost var b2 := buf[..];
    WrittenThen(b0, b1, b2, idx, [NEW_PID_EXT], EncodeNode(t.node));
    var ids := [t.id, t.serial, t.creation];
    idx' := WriteWords(ids, buf, idx');
    WrittenThen(b0, b2, buf[..], idx, [NEW_PID_EXT] + EncodeNode(t.node), EncodeWords(ids));
  }

  method WriteRef(t: Term, buf: array<Byte>, idx: nat) returns (idx': nat)
    requires t.Ref? && Encodable(t) && idx + |Encode(t)| <= buf.Length
    modifies buf
    ensures idx' == idx + |Encode(t)| && Written(buf[..], old(buf[..]), idx, Encode(t))
  {
    ghost var b0 := buf[..];
    idx' := Put8(buf, idx, NEWER_REFERENCE_EXT);
    ghost var b1 := buf[..];
    idx' := Put16(buf, idx', |t.ids|);
    ghost var b2 := buf[..];
    ghost var w2 := [NEWER_REFERENCE_EXT] + Be16(|t.ids|);
    WrittenThen(b0, b1, b2, idx, [NEWER_REFERENCE_EXT], Be16(|t.ids|));
    idx' := WriteNode(t.node, buf, idx');
    ghost var b3 := buf[..];
    WrittenThen(b0, b2, b3, idx, w2, EncodeNode(t.node));
    idx' := WriteWords([t.creation] + t.ids, buf, idx');
    WrittenThen(b0, b3, buf[..], idx, w2 + EncodeNode(t.node), EncodeWords([t.creation] + t.ids));
  }

  lemma {:induction false} EncodeAllAppend(ts: seq<Term>, t: Term)
    requires (forall x | x in ts :: Encodable(x)) && Encodable(t)
    ensures EncodeAll(ts + [t]) == EncodeAll(ts) + Encode(t)
  {
    if ts == [] {
      assert EncodeAll([t]) == Encode(t) + EncodeAll([]);
    } else {
      EncodeAllAppend(ts[1..], t);
      assert (ts + [t])[1..] == ts[1..] + [t];
    }
  }

  lemma {:induction false} EncodeAllFits(ts: seq<Term>, k: nat)
    requires (forall x | x in ts :: Encodable(x)) && k < |ts|
    ensures |EncodeAll(ts[..k])| + |Encode(ts[k])| <= |EncodeAll(ts)|
  {
    if k > 0 {
      EncodeAllFits(ts[1..], k - 1);
      assert ts[..k][1..] == ts[1..][..k - 1];
    }
  }

  /** The loop over elements that tuples and lists share. */
  method WriteTerms(ts: seq<Term>, buf: array<Byte>, idx: nat) returns (idx': nat)
    requires (forall t | t in ts :: Encodable(t)) && idx + |EncodeAll(ts)| <= buf.Length
    modifies buf
    ensures idx' == idx + |EncodeAll(ts)| && Written(buf[..], old(buf[..]), idx, EncodeAll(ts))
    decreases ts, 2
  {
    ghost var b0 := buf[..];
    idx' := idx;
    for k := 0 to |ts|
      invariant idx' == idx + |EncodeAll(ts[..k])|
      invariant Written(buf[..], b0, idx, EncodeAll(ts[..k]))
    {
      ghost var b1 := buf[..];
      EncodeAllFits(ts, k);
      idx' := EncodeInto(ts[k], buf, idx');
      WrittenThen(b0, b1, buf[..], idx, EncodeAll(ts[..k]), Encode(ts[k]));
      EncodeAllAppend(ts[..k], ts[k]);
      assert ts[..k + 1] == ts[..k] + [ts[k]];
    }
    assert ts[..|ts|] == ts;
  }

  method WriteTuple(t: Term, buf: array<Byte>, idx: nat) returns (idx': nat)
    requires t.Tuple? && Encodable(t) && idx + |Encode(t)| <= buf.Length
    modifies buf
    ensures idx' == idx + |Encode(t)| && Written(buf[..], old(buf[..]), idx, Encode(t))
    decreases t, 0
  {
    ghost var b0 := buf[..];
    var hdr := TupleHeader(|t.elems|);
    idx' := PutBytes(buf, idx, hdr);
    ghost var b1 := buf[..];
    idx' := WriteTerms(t.elems, buf, idx');
    WrittenThen(b0, b1, buf[..], idx, hdr, EncodeAll(t.elems));
  }

  method WriteList(t: Term, buf: array<Byte>, idx: nat) returns (idx': nat)
    requires t.List? && Encodable(t) && idx + |Encode(t)| <= buf.Length
    modifies buf
    ensures idx' == idx + |Encode(t)| && Written(buf[..], old(buf[..]), idx, Encode(t))
    decreases t, 0
  {
    if t.elems == [] {
      idx' := Put8(buf, idx, NIL_EXT);
      return;
    }
    ghost var b0 := buf[..];
    idx' := Put8(buf, idx, LIST_EXT);
    ghost var b1 := buf[..];
    idx' := Put32(buf, idx', |t.elems|);
    ghost var b2 := buf[..];
    ghost var w2 := [LIST_EXT] + Be32(|t.elems|);
    WrittenThen(b0, b1, b2, idx, [LIST_EXT], Be32(|t.elems|));
    idx' := WriteTerms(t.elems, buf, idx');
    ghost var b3 := buf[..];
    WrittenThen(b0, b2, b3, idx, w2, EncodeAll(t.elems));
    idx' := Put8(buf, idx', NIL_EXT);
    WrittenThen(b0, b3, buf[..], idx, w2 + EncodeAll(t.elems), [NIL_EXT]);
  }

  /** The visitor `visit_eterm_encoder`. */
  method EncodeInto(t: Term, buf: array<Byte>, idx: nat) returns (idx': nat)
    requires Encodable(t) && idx + |Encode(t)| <= buf.Length
    modifies buf
    ensures idx' == idx + |Encode(t)| && Written(buf[..], old(buf[..]), idx, Encode(t))
    decreases t, 1
  {
    match t
    case Long(i) => idx' := PutBytes(buf, idx, EncodeLong(i));
    case Bool(f) => ShortNamesAreValid(BoolName(f)); idx' := WriteAtom(BoolName(f), buf, idx);
    case Atom(n) => idx' := WriteAtom(n, buf, idx);
    case Str(s) => idx' := PutBytes(buf, idx, EncodeString(s));
    case Binary(d) => idx' := WriteBinary(d, buf, idx);
    case Pid(_, _, _, _) => idx' := WritePid(t, buf, idx);
    case Ref(_, _, _) => idx' := WriteRef(t, buf, idx);
    case Tuple(_) => idx' := WriteTuple(t, buf, idx);
    case List(_) => idx' := WriteList(t, buf, idx);
  }

  // ----- whole packets -----

  /** Big-endian length field of `h` bytes; the length is cut to what fits. */
  function LengthField(h: nat, n: nat): (r: Bytes)
    requires h in {0, 1, 2, 4}
    ensures |r| == h
  {
    if h == 0 then [] else if h == 1 then [n % 256]
    else if h == 2 then Be16(n % 0x1_0000) else Be32(n % 0x1_0000_0000)
  }

  function Version(withVersion: bool): Bytes {
    if withVersion then [VERSION_MAGIC] else []
  }

  /** `encode_size(header, with_version)`. */
  function PacketSize(t: Term, h: nat, withVersion: bool): nat
    requires Encodable(t)
  {
    h + SizeOf(t) + (if withVersion then 1 else 0)
  }

  function Packet(t: Term, h: nat, withVersion: bool): Bytes
    requires Encodable(t) && h in {0, 1, 2, 4}
  {
    LengthField(h, SizeOf(t) + |Version(withVersion)|) + Version(withVersion) + Encode(t)
  }

  /**
   * `eterm::encode` into a buffer of the predicted size. It fails exactly on a header
   * size other than 0, 1, 2 and 4; otherwise the write pass fills the buffer to its
   * last byte, which is what the final assertion of the source demands.
   */
  method EncodePacket(t: Term, h: nat, withVersion: bool, buf: array<Byte>) returns (ok: bool)
    requires Encodable(t) && buf.Length == PacketSize(t, h, withVersion)
    modifies buf
    ensures ok <==> h in {0, 1, 2, 4}
    ensures ok ==> buf[..] == Packet(t, h, withVersion)
  {
    if h !in {0, 1, 2, 4} {
      return false;
    }
    SizeIsExact(t);
    ghost var b0 := buf[..];
    var field := LengthField(h, buf.Length - h);
    var offset := PutBytes(buf, 0, field);
    ghost var b1 := buf[..];
    offset := PutBytes(buf, offset, Version(withVersion));
    ghost var b2 := buf[..];
    WrittenThen(b0, b1, b2, 0, field, Version(withVersion));
    offset := EncodeInto(t, buf, offset);
    WrittenThen(b0, b2, buf[..], 0, field + Version(withVersion), Encode(t));
    assert offset == buf.Length;
    MatchesSlice(buf[..], 0, Packet(t, h, withVersion));
    ok := true;
  }

  /**
   * `eterm::encode` into a fresh string. Variables and terms that the format cannot hold
   * are refused, as are unknown header sizes.
   */
  method EncodeTerm(t: Term, h: nat, withVersion: bool) returns (r: Option<Bytes>)
    ensures r == if Encodable(t) && h in {0, 1, 2, 4} then Some(Packet(t, h, withVersion)) else None
  {
    if !Encodable(t) {
      return None;
    }
    var buf := new Byte[PacketSize(t, h, withVersion)](_ => 0);
    var ok := EncodePacket(t, h, withVersion, buf);
    r := if ok then Some(buf[..]) else None;
  }

  // ----- reading -----

  method ReadTerm(b: Bytes, idx: nat) returns (r: Decoded<Term>)
    requires idx <= |b|
    ensures r == Decode(b, idx)
    decreases |b| - idx, 0
  {
    if idx == |b| {
      r := Err(EmptyTerm);
    } else if b[idx] == SMALL_TUPLE_EXT || b[idx] == LARGE_TUPLE_EXT {
      r := ReadTuple(b, idx);
    } else if b[idx] == LIST_EXT {
      r := ReadList(b, idx);
    } else {
      r := DecodeSimple(b, idx);
    }
  }

  method ReadTuple(b: Bytes, idx: nat) returns (r: Decoded<Term>)
    requires idx < |b|
    ensures r == TupleAt(b, Simple(b), idx)
    decreases |b| - idx - 1, 3
  {
    var hdr := if b[idx] == SMALL_TUPLE_EXT then 2 else 5;
    if idx + hdr > |b| {
      return Err(Truncated);
    }
    var arity := if hdr == 2 then b[idx + 1] else Get32(b, idx + 1);
    var elems := ReadTerms(b, idx + hdr, arity);
    match elems
    case Err(e) => r := Err(e);
    case Ok(v, pos) => r := Ok(Tuple(v), pos);
  }

  method ReadList(b: Bytes, idx: nat) returns (r: Decoded<Term>)
    requires idx < |b|
    ensures r == ListAt(b, Simple(b), idx)
    decreases |b| - idx - 1, 3
  {
    if idx + 5 > |b| {
      return Err(Truncated);
    }
    var arity := Get32(b, idx + 1);
    if arity == 0 {
      return Ok(List([]), idx + 5);
    }
    var elems := ReadTerms(b, idx + 5, arity);
    match elems
    case Err(e) => r := Err(e);
    case Ok(v, pos) =>
      if pos >= |b| {
        r := Err(Truncated);
      } else if b[pos] != NIL_EXT {
        r := Err(NotNil);
      } else {
        r := Ok(List(v), pos + 1);
      }
  }

  method ReadTerms(b: Bytes, start: nat, arity: nat) returns (r: Decoded<seq<Term>>)
    requires start <= |b|
    ensures r == TermsAt(b, Simple(b), start, arity, [])
    decreases |b| - start, 1
  {
    var idx, elems := start, [];
    for k := 0 to arity
      invariant start <= idx <= |b|
      invariant TermsAt(b, Simple(b), idx, arity - k, elems) == TermsAt(b, Simple(b), start, arity, [])
    {
      var e := ReadTerm(b, idx);
      if e.Err? {
        return Err(e.failure);
      }
      idx, elems := e.pos, elems + [e.value];
    }
    r := Ok(elems, idx);
  }
}
