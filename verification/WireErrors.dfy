/** What is no term: unknown tags, and forms that are cut short. */
module WireErrors {
  import opened Codec
  import opened CodecRoundTrip
  import opened Slices
  import opened Terms
  import opened Wire
  import WireExact

  // ----- tags -----

  predicate Known(tag: Byte) {
    tag in {88, 90, 97, 98, 100, 101, 103, 104, 105, 106, 107, 108, 109, 110, 111, 114, 115, 118, 119}
  }

  /** The end of the buffer, tags that are not understood, and the old form of references. */
  lemma OtherTags(b: Bytes, i: nat)
    requires i <= |b|
    ensures i == |b| ==> Decode(b, i) == Err(EmptyTerm)
    ensures i < |b| && b[i] == 101 ==> Decode(b, i) == Err(BadRefCount)
    ensures i < |b| && !Known(b[i]) ==> Decode(b, i) == Err(Unsupported)
  {
    if i < |b| && b[i] !in {104, 105, 108} { assert Decode(b, i) == Codec.Simple(b)(i); }
  }

  // ----- forms cut short -----

  /** The buffer ends inside `w`, which begins at `i`. */
  predicate Cut(b: Bytes, i: nat, w: Bytes) {
    i <= |b| < i + |w| && forall k | i <= k < |b| :: b[k] == w[k - i]
  }

  lemma CutWhere(b: Bytes, i: nat, u: Bytes, v: Bytes)
    requires Cut(b, i, u + v)
    ensures Cut(b, i, u) || (Matches(b, i, u) && Cut(b, i + |u|, v))
  {
    var w := u + v;
    assert forall k | 0 <= k < |u| :: w[k] == u[k];
    assert forall k | 0 <= k < |v| :: w[|u| + k] == v[k];
    if |b| >= i + |u| {
      forall k | 0 <= k < |u| ensures b[i + k] == u[k] {
        assert b[i + k] == w[k];
      }
    }
  }

  lemma CutInThree(b: Bytes, i: nat, u: Bytes, v: Bytes, w: Bytes)
    requires Cut(b, i, u + v + w)
    ensures Cut(b, i, u) || (Matches(b, i, u) &&
              (Cut(b, i + |u|, v) || (Matches(b, i + |u|, v) && Cut(b, i + |u| + |v|, w))))
  {
    assert u + v + w == u + (v + w);
    CutWhere(b, i, u, v + w);
    if !Cut(b, i, u) { CutWhere(b, i + |u|, v, w); }
  }

  /** A header, a label and what follows: where the buffer ends, and that it begins with the header. */
  lemma CutBehind(b: Bytes, i: nat, u: Bytes, v: Bytes, x: Bytes, y: Bytes)
    requires Cut(b, i, u + v + x + y) && u != [] && i < |b|
    ensures b[i] == u[0]
    ensures Cut(b, i, u) || (Matches(b, i, u) && (Cut(b, i + |u|, v) ||
              (Matches(b, i + |u|, v) && |b| < i + |u| + |v| + |x| + |y|)))
  {
    assert u + v + x + y == u + v + (x + y);
    CutInThree(b, i, u, v, x + y);
    if !Cut(b, i, u) { MatchesAt(b, i, u, 0); }
  }

  /** Fewer than `|w|` bytes are left, and the first one, if there is any, is that of `w`. */
  lemma CutStart(b: Bytes, i: nat, w: Bytes)
    requires Cut(b, i, w)
    ensures |b| < i + |w| && (i < |b| ==> b[i] == w[0])
  {
  }

  lemma CutSlice(b: Bytes, i: nat, w: Bytes)
    requires Cut(b, i, w)
    ensures Slice(b, i, |w|) == Err(Truncated)
  {
  }

  lemma LabelCut(b: Bytes, i: nat, l: Label)
    requires LabelFits(l) && Cut(b, i, SpellLabel(l))
    ensures AtomName(b, i) == Err(Truncated)
  {
    if i < |b| {
      var wide := l.tag.Latin? || l.tag.Utf8?;
      var tag: Byte :=
        if l.tag.Latin? then 100 else if l.tag.Utf8? then 118 else if l.tag.SmallLatin? then 115 else 119;
      var hdr: Bytes := if wide then [tag] + B2(|l.name|) else [tag, |l.name|];
      CutWhere(b, i, hdr, l.name);
      CutStart(b, i, SpellLabel(l));
      if Matches(b, i, hdr) {
        CutSlice(b, i + |hdr|, l.name);
        if wide { CountReads(b, i, tag, |l.name|); } else { MatchesPair(b, i, tag, |l.name|); }
      }
    }
  }

  lemma IntegerCut(b: Bytes, i: nat, u: nat)
    requires u < 4294967296 && i < |b| && Cut(b, i, [98] + B4(u))
    ensures DecodeSimple(b, i) == Err(Truncated)
  {
    CutStart(b, i, [98] + B4(u));
  }

  lemma BigCut(b: Bytes, i: nat, large: bool, sign: Byte, d: Bytes)
    requires |d| < (if large then 4294967296 else 256) && i < |b| && Cut(b, i, SpellForm(Big(large, sign, d)))
    ensures DecodeSimple(b, i) == Err(Truncated)
  {
    var hdr: Bytes := if large then [111] + B4(|d|) else [110, |d|];
    assert SpellForm(Big(large, sign, d)) == hdr + ([sign] + d);
    CutWhere(b, i, hdr, [sign] + d);
    CutStart(b, i, hdr + ([sign] + d));
    if Matches(b, i, hdr) {
      CutStart(b, i + |hdr|, [sign] + d);
      if large {
        MatchesParts(b, i, [111], B4(|d|));
        B4Reads(b, i + 1, |d|);
      } else {
        MatchesPair(b, i, 110, |d|);
      }
    }
  }

  lemma StringCut(b: Bytes, i: nat, s: Bytes)
    requires |s| < 65536 && i < |b| && Cut(b, i, [107] + B2(|s|) + s)
    ensures DecodeSimple(b, i) == Err(Truncated)
  {
    CutWhere(b, i, [107] + B2(|s|), s);
    CutStart(b, i, [107] + B2(|s|) + s);
    if Matches(b, i, [107] + B2(|s|)) {
      CountReads(b, i, 107, |s|);
      CutSlice(b, i + 3, s);
    }
  }

  lemma BinaryCut(b: Bytes, i: nat, d: Bytes)
    requires Word(|d|) && i < |b| && Cut(b, i, [109] + B4(|d|) + d)
    ensures DecodeSimple(b, i) == Err(Truncated)
  {
    CutWhere(b, i, [109] + B4(|d|), d);
    CutStart(b, i, [109] + B4(|d|) + d);
    if Matches(b, i, [109] + B4(|d|)) {
      MatchesParts(b, i, [109], B4(|d|));
      B4Reads(b, i + 1, |d|);
      CutSlice(b, i + 5, d);
    }
  }

  lemma PidCut(b: Bytes, i: nat, l: Label, numbers: Bytes, creation: Bytes)
    requires LabelFits(l) && GoodNode(l.name) && |numbers| == 8 && (|creation| == 4 || |creation| == 1)
    requires var tag: Byte := if |creation| == 4 then 88 else 103;
      i < |b| && Cut(b, i, [tag] + SpellLabel(l) + numbers + creation)
    ensures DecodeSimple(b, i) == Err(Truncated)
  {
    var tag: Byte := if |creation| == 4 then 88 else 103;
    CutBehind(b, i, [tag], SpellLabel(l), numbers, creation);
    if Cut(b, i + 1, SpellLabel(l)) { LabelCut(b, i + 1, l); } else { NodeReads(b, i + 1, l); }
    PidTruncated(b, i, l.name, i + 1 + |SpellLabel(l)|);
  }

  lemma PidTruncated(b: Bytes, i: nat, n: Name, p: nat)
    requires i < |b| && (b[i] == 88 || b[i] == 103)
    requires DecodeNode(b, i + 1) == Err(Truncated) ||
      (DecodeNode(b, i + 1) == Ok(n, p) && |b| < p + 8 + if b[i] == 88 then 4 else 1)
    ensures DecodeSimple(b, i) == Err(Truncated)
  {
  }

  lemma RefCut(b: Bytes, i: nat, l: Label, tag: Byte, n: nat, creation: Bytes, words: Bytes)
    requires LabelFits(l) && GoodNode(l.name) && 3 <= n <= 5 && |words| == 4 * n
    requires (tag == 90 && |creation| == 4) || (tag == 114 && |creation| == 1)
    requires i < |b| && Cut(b, i, ([tag] + B2(n)) + SpellLabel(l) + creation + words)
    ensures DecodeSimple(b, i) == Err(Truncated)
  {
    var hdr := [tag] + B2(n);
    CutBehind(b, i, hdr, SpellLabel(l), creation, words);
    if Matches(b, i, hdr) {
      CountReads(b, i, tag, n);
      if Cut(b, i + 3, SpellLabel(l)) { LabelCut(b, i + 3, l); } else { NodeReads(b, i + 3, l); }
      RefTruncated(b, i, n, l.name, i + 3 + |SpellLabel(l)|);
    }
  }

  lemma RefTruncated(b: Bytes, i: nat, n: nat, name: Name, p: nat)
    requires i + 3 <= |b| && (b[i] == 90 || b[i] == 114) && Get16(b, i + 1) == n && 3 <= n <= 5
    requires DecodeNode(b, i + 3) == Err(Truncated) ||
      (DecodeNode(b, i + 3) == Ok(name, p) && |b| < p + (if b[i] == 90 then 4 else 1) + 4 * n)
    ensures DecodeSimple(b, i) == Err(Truncated)
  {
  }

  /** A simple form that means something, cut short behind its tag, is reported as truncated. */
  lemma CutFormIsTruncated(b: Bytes, i: nat, f: Form)
    requires FormFits(f) && FormMeaning(f).Means? && i < |b| && Cut(b, i, SpellForm(f))
    ensures DecodeSimple(b, i) == Err(Truncated)
  {
    match f
    case SmallInteger(_) => CutStart(b, i, SpellForm(f));
    case Integer(v) => IntegerCut(b, i, if v < 0 then v + 4294967296 else v);
    case Big(large, sign, d) => BigCut(b, i, large, sign, d);
    case AtomForm(l) => LabelCut(b, i, l); CutStart(b, i, SpellForm(f));
    case Nil =>
    case StringForm(s) => StringCut(b, i, s);
    case BinaryForm(d) => BinaryCut(b, i, d);
    case OldPid(l, id, serial, low) => PidCut(b, i, l, B4(id) + B4(serial), [low]);
    case NewPid(l, id, serial, c) => PidCut(b, i, l, B4(id) + B4(serial), B4(c));
    case NewRef(l, low, ws) => RefCut(b, i, l, 114, |ws|, [low], SpellWords(ws));
    case NewerRef(l, c, ws) => RefCut(b, i, l, 90, |ws|, B4(c), SpellWords(ws));
  }

  /** What stands in one place and means something has one length. */
  lemma OneLength(b: Bytes, i: nat, w: Wire, x: Wire)
    requires Fits(w) && Fits(x) && Matches(b, i, Spell(w)) && Matches(b, i, Spell(x)) && MeaningOf(x).Means?
    ensures |Spell(w)| == |Spell(x)|
  {
    DecodeReadsWire(b, i, x);
    DecodeReadsWire(b, i, w);
  }

  lemma FormOf(b: Bytes, i: nat, t: Term, e: nat) returns (x: Wire)
    requires i <= |b| && Decode(b, i) == Ok(t, e)
    ensures WireExact.WireEnds(x, b, i, e) && MeaningOf(x).Means?
  {
    WireExact.DecodeIffWire(b, i, t, e);
    x :| WireExact.WireEnds(x, b, i, e) && MeaningOf(x) == Means(t);
  }

  /** No term, however nested, can be decoded from a buffer `b` that ends before its form does. */
  lemma CutTermFails(b: Bytes, full: Bytes, i: nat, w: Wire)
    requires b <= full && Fits(w) && Matches(full, i, Spell(w)) && i <= |b| < i + |Spell(w)|
    ensures Decode(b, i).Err?
  {
    var r := Decode(b, i);
    if r.Ok? {
      var x := FormOf(b, i, r.value, r.pos);
      MatchesLonger(b, full, i, Spell(x));
      OneLength(full, i, w, x);
    }
  }

  lemma MatchesLonger(b: Bytes, full: Bytes, i: nat, w: Bytes)
    requires b <= full && Matches(b, i, w)
    ensures Matches(full, i, w)
  {
  }
}
