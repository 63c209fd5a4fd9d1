/**
 * Decoding accepts the forms of Wire and nothing else, and encoding chooses one of them.
 */
module WireExact {
  import opened Codec
  import opened CodecRoundTrip
  import opened Slices
  import opened Terms
  import opened Wire

  // ----- putting pieces together -----

  lemma Join2(b: Bytes, i: nat, u: Bytes, v: Bytes)
    requires Matches(b, i, u) && Matches(b, i + |u|, v)
    ensures Matches(b, i, u + v)
  {
  }

  lemma Join3(b: Bytes, i: nat, u: Bytes, v: Bytes, w: Bytes)
    requires Matches(b, i, u) && Matches(b, i + |u|, v) && Matches(b, i + |u| + |v|, w)
    ensures Matches(b, i, u + v + w)
  {
    Join2(b, i, u, v);
    Join2(b, i, u + v, w);
  }

  lemma Join4(b: Bytes, i: nat, t: Bytes, u: Bytes, v: Bytes, w: Bytes)
    requires Matches(b, i, t) && Matches(b, i + |t|, u)
    requires Matches(b, i + |t| + |u|, v) && Matches(b, i + |t| + |u| + |v|, w)
    ensures Matches(b, i, t + u + v + w)
  {
    Join3(b, i, t, u, v);
    Join2(b, i, t + u + v, w);
  }

  lemma PieceAt(b: Bytes, i: nat, n: nat)
    requires i + n <= |b|
    ensures Matches(b, i, b[i..i + n])
  {
  }

  lemma ByteAt(b: Bytes, i: nat)
    requires i < |b|
    ensures Matches(b, i, [b[i]])
  {
  }

  lemma B2At(b: Bytes, i: nat)
    requires i + 2 <= |b|
    ensures Matches(b, i, B2(Get16(b, i)))
  {
  }

  lemma B4At(b: Bytes, i: nat)
    requires i + 4 <= |b|
    ensures Matches(b, i, B4(Get32(b, i)))
  {
    Be32At(b, i);
    B4IsBe32(Get32(b, i));
  }

  lemma Be32At(b: Bytes, i: nat)
    requires i + 4 <= |b|
    ensures Matches(b, i, Be32(Get32(b, i)))
  {
    var (h, l) := (Get16(b, i), Get16(b, i + 2));
    assert (h * 0x1_0000 + l) / 0x1_0000 == h && (h * 0x1_0000 + l) % 0x1_0000 == l;
    Join2(b, i, Be16(h), Be16(l));
  }

  // ----- simple forms -----

  lemma LabelAt(b: Bytes, i: nat) returns (l: Label)
    requires AtomName(b, i).Ok?
    ensures LabelFits(l) && Matches(b, i, SpellLabel(l)) && AtomName(b, i).pos == i + |SpellLabel(l)|
  {
    var n := AtomName(b, i).value;
    ByteAt(b, i);
    if b[i] == 119 || b[i] == 115 {
      l := Label(if b[i] == 119 then SmallUtf8 else SmallLatin, n);
      PieceAt(b, i + 2, |n|);
      assert Matches(b, i, [b[i], |n|]);
      Join2(b, i, [b[i], |n|], n);
    } else {
      l := Label(if b[i] == 118 then Utf8 else Latin, n);
      B2At(b, i + 1);
      PieceAt(b, i + 3, |n|);
      Join3(b, i, [b[i]], B2(|n|), n);
    }
  }

  lemma {:induction false} WordsAt(b: Bytes, i: nat, n: nat) returns (ws: seq<nat>)
    requires i + 4 * n <= |b|
    ensures |ws| == n && AllWords(ws) && Matches(b, i, SpellWords(ws))
    decreases n
  {
    if n == 0 {
      ws := [];
    } else {
      var rest := WordsAt(b, i + 4, n - 1);
      ws := [Get32(b, i)] + rest;
      assert ws[1..] == rest;
      B4At(b, i);
      Join2(b, i, B4(ws[0]), SpellWords(rest));
    }
  }

  lemma IntegerAt(b: Bytes, i: nat) returns (f: Form)
    requires i + 5 <= |b| && b[i] == 98
    ensures FormFits(f) && Matches(b, i, SpellForm(f))
  {
    var u := Get32(b, i + 1);
    var v: int := u;
    f := Integer(if v < 2147483648 then v else v - 4294967296);
    ByteAt(b, i);
    B4At(b, i + 1);
    Join2(b, i, [98], B4(u));
  }

  lemma BigAt(b: Bytes, i: nat, large: bool) returns (f: Form)
    requires DecodeSimple(b, i).Ok? && b[i] == if large then 111 else 110
    ensures FormFits(f) && Matches(b, i, SpellForm(f))
  {
    var p := i + if large then 5 else 2;
    var n := if large then Get32(b, i + 1) else b[i + 1];
    var d := b[p + 1..p + 1 + n];
    f := Big(large, b[p], d);
    ByteAt(b, i);
    ByteAt(b, p);
    PieceAt(b, p + 1, n);
    if large {
      B4At(b, i + 1);
      Join2(b, i, [111], B4(n));
      Join3(b, i, [111] + B4(n), [b[p]], d);
    } else {
      assert Matches(b, i, [110, n]);
      Join3(b, i, [110, n], [b[p]], d);
    }
  }

  lemma StringAt(b: Bytes, i: nat) returns (f: Form)
    requires DecodeSimple(b, i).Ok? && b[i] == 107
    ensures FormFits(f) && Matches(b, i, SpellForm(f))
  {
    var n := Get16(b, i + 1);
    f := StringForm(b[i + 3..i + 3 + n]);
    ByteAt(b, i);
    B2At(b, i + 1);
    PieceAt(b, i + 3, n);
    Join3(b, i, [107], B2(n), f.chars);
  }

  lemma BinaryAt(b: Bytes, i: nat) returns (f: Form)
    requires DecodeSimple(b, i).Ok? && b[i] == 109
    ensures FormFits(f) && Matches(b, i, SpellForm(f))
  {
    var n := Get32(b, i + 1);
    f := BinaryForm(b[i + 5..i + 5 + n]);
    ByteAt(b, i);
    B4At(b, i + 1);
    PieceAt(b, i + 5, n);
    Join3(b, i, [109], B4(n), f.data);
  }

  lemma PidAt(b: Bytes, i: nat) returns (f: Form)
    requires i < |b| && DecodePid(b, i).Ok? && (b[i] == 88 || b[i] == 103)
    ensures FormFits(f) && Matches(b, i, SpellForm(f))
  {
    var l := LabelAt(b, i + 1);
    f := PidBehind(b, i, l, i + 1 + |SpellLabel(l)|);
  }

  lemma PidBehind(b: Bytes, i: nat, l: Label, p: nat) returns (f: Form)
    requires i < |b| && (b[i] == 88 || b[i] == 103) && p + 8 + (if b[i] == 88 then 4 else 1) <= |b|
    requires LabelFits(l) && Matches(b, i + 1, SpellLabel(l)) && p == i + 1 + |SpellLabel(l)|
    ensures FormFits(f) && Matches(b, i, SpellForm(f))
  {
    var (id, serial) := (Get32(b, p), Get32(b, p + 4));
    ByteAt(b, i);
    B4At(b, p);
    B4At(b, p + 4);
    Join2(b, p, B4(id), B4(serial));
    if b[i] == 88 {
      f := NewPid(l, id, serial, Get32(b, p + 8));
      B4At(b, p + 8);
      Join4(b, i, [88], SpellLabel(l), B4(id) + B4(serial), B4(f.creation));
    } else {
      f := OldPid(l, id, serial, b[p + 8]);
      ByteAt(b, p + 8);
      Join4(b, i, [103], SpellLabel(l), B4(id) + B4(serial), [b[p + 8]]);
    }
  }

  lemma RefAt(b: Bytes, i: nat) returns (f: Form)
    requires i < |b| && DecodeRef(b, i).Ok? && (b[i] == 90 || b[i] == 114)
    ensures FormFits(f) && Matches(b, i, SpellForm(f))
  {
    var n := Get16(b, i + 1);
    var l := LabelAt(b, i + 3);
    f := RefBehind(b, i, n, l, i + 3 + |SpellLabel(l)|);
  }

  lemma RefBehind(b: Bytes, i: nat, n: nat, l: Label, p: nat) returns (f: Form)
    requires i + 3 <= |b| && (b[i] == 90 || b[i] == 114) && n == Get16(b, i + 1)
    requires p + (if b[i] == 90 then 4 else 1) + 4 * n <= |b|
    requires LabelFits(l) && Matches(b, i + 3, SpellLabel(l)) && p == i + 3 + |SpellLabel(l)|
    ensures FormFits(f) && Matches(b, i, SpellForm(f))
  {
    ByteAt(b, i);
    B2At(b, i + 1);
    Join2(b, i, [b[i]], B2(n));
    if b[i] == 90 {
      var ws := WordsAt(b, p + 4, n);
      f := NewerRef(l, Get32(b, p), ws);
      B4At(b, p);
      Join4(b, i, [90] + B2(n), SpellLabel(l), B4(f.creation), SpellWords(ws));
    } else {
      var ws := WordsAt(b, p + 1, n);
      f := NewRef(l, b[p], ws);
      ByteAt(b, p);
      Join4(b, i, [114] + B2(n), SpellLabel(l), [b[p]], SpellWords(ws));
    }
  }

  /** Only the tags of the simple forms are accepted. */
  lemma TagIsKnown(b: Bytes, i: nat)
    requires DecodeSimple(b, i).Ok?
    ensures i < |b| && b[i] in {97, 98, 110, 111, 100, 115, 118, 119, 106, 107, 109, 103, 88, 114, 90}
    ensures b[i] in {100, 115, 118, 119} ==> DecodeSimple(b, i) == DecodeAtom(b, i)
    ensures b[i] in {103, 88} ==> DecodeSimple(b, i) == DecodePid(b, i)
    ensures b[i] in {114, 90} ==> DecodeSimple(b, i) == DecodeRef(b, i)
    ensures b[i] == 97 ==> i + 2 <= |b|
    ensures b[i] == 98 ==> i + 5 <= |b|
  {
  }

  lemma FormAt(b: Bytes, i: nat) returns (f: Form)
    requires DecodeSimple(b, i).Ok?
    ensures FormHere(f, b, i) && DecodeSimple(b, i).pos == i + |SpellForm(f)|
  {
    TagIsKnown(b, i);
    if b[i] == 97 {
      f := SmallInteger(b[i + 1]);
    } else if b[i] == 98 {
      f := IntegerAt(b, i);
    } else if b[i] == 110 || b[i] == 111 {
      f := BigAt(b, i, b[i] == 111);
    } else if b[i] == 106 {
      f := Nil;
    } else if b[i] == 107 {
      f := StringAt(b, i);
    } else if b[i] == 109 {
      f := BinaryAt(b, i);
    } else if b[i] == 88 || b[i] == 103 {
      f := PidAt(b, i);
    } else if b[i] == 90 || b[i] == 114 {
      f := RefAt(b, i);
    } else {
      var l := LabelAt(b, i);
      f := AtomForm(l);
    }
    FormReads(b, i, f);
  }

  // ----- nested forms -----

  ghost predicate FormEnds(f: Form, b: Bytes, i: nat, e: nat) {
    FormHere(f, b, i) && e == i + |SpellForm(f)|
  }

  /** All that nesting asks of the decoder of simple terms. */
  ghost predicate HasForms(b: Bytes, simple: SimpleDecoder) {
    forall i: nat :: simple(i).Ok? ==> exists f :: FormEnds(f, b, i, simple(i).pos)
  }

  ghost predicate WireEnds(w: Wire, b: Bytes, i: nat, e: nat) {
    Fits(w) && Matches(b, i, Spell(w)) && e == i + |Spell(w)|
  }

  lemma {:induction false} WireAt(b: Bytes, simple: SimpleDecoder, i: nat) returns (w: Wire)
    requires i <= |b| && Advances(b, simple) && HasForms(b, simple) && TermAt(b, simple, i).Ok?
    ensures WireEnds(w, b, i, TermAt(b, simple, i).pos)
    decreases |b| - i, 0
  {
    if b[i] == 104 || b[i] == 105 {
      w := TupleFormAt(b, simple, i);
    } else if b[i] == 108 {
      w := ListFormAt(b, simple, i);
    } else {
      var f :| FormEnds(f, b, i, simple(i).pos);
      w := Wire.Simple(f);
    }
  }

  lemma {:induction false} TupleFormAt(b: Bytes, simple: SimpleDecoder, i: nat) returns (w: Wire)
    requires i < |b| && Advances(b, simple) && HasForms(b, simple)
    requires (b[i] == 104 || b[i] == 105) && TupleAt(b, simple, i).Ok?
    ensures WireEnds(w, b, i, TupleAt(b, simple, i).pos)
    decreases |b| - i - 1, 3
  {
    ByteAt(b, i);
    if b[i] == 104 {
      var ws := WiresAt(b, simple, i + 2, b[i + 1], []);
      w := TupleForm(false, ws);
      assert Matches(b, i, [104, |ws|]);
      Join2(b, i, [104, |ws|], SpellAll(ws));
    } else {
      var ws := WiresAt(b, simple, i + 5, Get32(b, i + 1), []);
      w := TupleForm(true, ws);
      B4At(b, i + 1);
      Join2(b, i, [105], B4(|ws|));
      Join2(b, i, [105] + B4(|ws|), SpellAll(ws));
    }
  }

  lemma {:induction false} ListFormAt(b: Bytes, simple: SimpleDecoder, i: nat) returns (w: Wire)
    requires i < |b| && Advances(b, simple) && HasForms(b, simple)
    requires b[i] == 108 && ListAt(b, simple, i).Ok?
    ensures WireEnds(w, b, i, ListAt(b, simple, i).pos)
    decreases |b| - i - 1, 3
  {
    ByteAt(b, i);
    B4At(b, i + 1);
    if Get32(b, i + 1) == 0 {
      w := ListForm([]);
      Join2(b, i, [108], B4(0));
      assert Spell(w) == [108] + B4(0);
    } else {
      var ws := WiresAt(b, simple, i + 5, Get32(b, i + 1), []);
      w := ListForm(ws);
      var e := i + 5 + |SpellAll(ws)|;
      ByteAt(b, e);
      Join4(b, i, [108], B4(|ws|), SpellAll(ws), [106]);
    }
  }

  lemma {:induction false} WiresAt(b: Bytes, simple: SimpleDecoder, i: nat, n: nat, acc: seq<Term>)
      returns (ws: seq<Wire>)
    requires i <= |b| && Advances(b, simple) && HasForms(b, simple) && TermsAt(b, simple, i, n, acc).Ok?
    ensures |ws| == n && AllFit(ws) && Matches(b, i, SpellAll(ws))
    ensures TermsAt(b, simple, i, n, acc).pos == i + |SpellAll(ws)|
    decreases |b| - i, 1
  {
    if n == 0 {
      ws := [];
    } else {
      var t := TermAt(b, simple, i);
      var w := WireAt(b, simple, i);
      var rest := WiresAt(b, simple, t.pos, n - 1, acc + [t.value]);
      ws := [w] + rest;
      assert ws[1..] == rest;
      Join2(b, i, Spell(w), SpellAll(rest));
    }
  }

  // ----- the theorem -----

  /** A form that means `t` stands in the buffer from `i` to `e`. */
  ghost predicate Written(b: Bytes, i: nat, t: Term, e: nat) {
    exists w :: WireEnds(w, b, i, e) && MeaningOf(w) == Means(t)
  }

  lemma FormsAreFound(b: Bytes)
    ensures HasForms(b, Codec.Simple(b))
  {
    forall j: nat | Codec.Simple(b)(j).Ok? ensures exists f :: FormEnds(f, b, j, Codec.Simple(b)(j).pos) {
      var f := FormAt(b, j);
      assert FormEnds(f, b, j, Codec.Simple(b)(j).pos);
    }
  }

  /** Decoding succeeds exactly on the forms, with exactly their meanings. */
  lemma DecodeIffWire(b: Bytes, i: nat, t: Term, e: nat)
    requires i <= |b|
    ensures Decode(b, i) == Ok(t, e) <==> Written(b, i, t, e)
  {
    if Decode(b, i) == Ok(t, e) {
      FormsAreFound(b);
      var w := WireAt(b, Codec.Simple(b), i);
      WireMeans(b, i, w, e);
      assert WireEnds(w, b, i, e);
    }
    if Written(b, i, t, e) {
      var w :| WireEnds(w, b, i, e) && MeaningOf(w) == Means(t);
      WireMeans(b, i, w, e);
    }
  }

  lemma WireMeans(b: Bytes, i: nat, w: Wire, e: nat)
    requires i <= |b| && WireEnds(w, b, i, e)
    ensures Decode(b, i) == Outcome(MeaningOf(w), e)
  {
    DecodeReadsWire(b, i, w);
  }

  // ----- forms that peers send and encoding never chooses -----

  /** Any 32-bit integer as INTEGER_EXT. */
  lemma IntegerIsDecoded(b: Bytes, i: nat, v: int)
    requires -2147483648 <= v <= 2147483647
    requires Matches(b, i, [98] + B4(if v < 0 then v + 4294967296 else v))
    ensures Decode(b, i) == Ok(Long(v), i + 5)
  {
    DecodeReadsWire(b, i, Wire.Simple(Integer(v)));
  }

  /** LARGE_BIG_EXT: four bytes of length, the sign, then digits with the last one counting most. */
  lemma LargeBigIsDecoded(b: Bytes, i: nat, sign: Byte, d: Bytes, w: Bytes)
    requires |d| < 4294967296 && w == [111] + B4(|d|) + [sign] + d && Matches(b, i, w)
    ensures var v: int := Unsigned(d);
      Decode(b, i) ==
      if sign == 0 && v <= 9223372036854775807 then Ok(Long(v), i + |w|)
      else if sign != 0 && v <= 9223372036854775808 then Ok(Long(-v), i + |w|)
      else Err(IntegerTooBig)
  {
    FormIsDecoded(b, i, Big(true, sign, d), w);
  }

  lemma FormIsDecoded(b: Bytes, i: nat, f: Form, w: Bytes)
    requires FormFits(f) && w == SpellForm(f) && Matches(b, i, w)
    ensures Decode(b, i) == Outcome(FormMeaning(f), i + |w|)
  {
    assert Spell(Wire.Simple(f)) == w;
    DecodeReadsWire(b, i, Wire.Simple(f));
  }

  /** ATOM_EXT and SMALL_ATOM_EXT are read like their UTF-8 successors. */
  lemma LatinAtomIsDecoded(b: Bytes, i: nat, n: Name)
    requires 0 < |n| < 256 && n != [116, 114, 117, 101] && n != [102, 97, 108, 115, 101]
    ensures Matches(b, i, [115, |n|] + n) ==> Decode(b, i) == Ok(Atom(n), i + 2 + |n|)
    ensures Matches(b, i, [100, 0, |n|] + n) ==> Decode(b, i) == Ok(Atom(n), i + 3 + |n|)
  {
    CodePointsAtMostBytes(n);
    if Matches(b, i, [115, |n|] + n) { DecodeReadsWire(b, i, Wire.Simple(AtomForm(Label(SmallLatin, n)))); }
    assert [100] + B2(|n|) + n == [100, 0, |n|] + n;
    if Matches(b, i, [100, 0, |n|] + n) { DecodeReadsWire(b, i, Wire.Simple(AtomForm(Label(Latin, n)))); }
  }

  /** PID_EXT: two bits of creation in one byte. */
  lemma OldPidIsDecoded(b: Bytes, i: nat, n: Name, id: nat, serial: nat, creation: Byte)
    requires |n| < 65536 && Word(id) && Word(serial)
    requires Matches(b, i, [103] + ([100] + B2(|n|) + n) + (B4(id) + B4(serial)) + [creation])
    ensures Decode(b, i) ==
      if GoodNode(n) then Ok(Pid(n, id, serial, creation % 4), i + 13 + |n|) else Err(BadNode)
  {
    DecodeReadsWire(b, i, Wire.Simple(OldPid(Label(Latin, n), id, serial, creation)));
  }

  /** NEW_REFERENCE_EXT: one byte of creation, and 18 bits of each of three to five ids. */
  lemma NewReferenceIsDecoded(b: Bytes, i: nat, n: Name, creation: Byte, ids: seq<nat>, w: Bytes)
    requires |n| < 65536 && |ids| < 65536 && AllWords(ids)
    requires w == ([114] + B2(|ids|)) + ([100] + B2(|n|) + n) + [creation] + SpellWords(ids) && Matches(b, i, w)
    ensures Decode(b, i) ==
      if !(3 <= |ids| <= 5) then Err(BadRefCount)
      else if GoodNode(n) then Ok(Ref(n, LowBits(ids), creation % 4), i + |w|)
      else Err(BadNode)
  {
    FormIsDecoded(b, i, NewRef(Label(Latin, n), creation, ids), w);
  }
}
