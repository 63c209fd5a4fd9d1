/** Which of the forms of Wire encoding writes, and which terms it can write at all. */
module WireChoice {
  import opened Codec
  import opened Terms
  import opened Wire

  // ----- what can be written -----

  predicate AliveName(n: Name) {
    1 <= |n| <= 128 && Utf8Length(n) <= 255
  }

  /** 64-bit numbers, names the atom table holds, and lengths of at most 31 or 32 bits. */
  predicate Writable(t: Term) {
    match t
    case Long(i) => -9223372036854775808 <= i <= 9223372036854775807
    case Bool(_) => true
    case Atom(n) => |n| <= 1021 && Utf8Length(n) <= 255
    case Str(s) => |s| <= 2147483647
    case Binary(d) => |d| <= 4294967295
    case Pid(n, id, serial, c) => AliveName(n) && id <= 4294967295 && serial <= 4294967295 && c <= 4294967295
    case Ref(n, ids, c) =>
      AliveName(n) && 3 <= |ids| <= 5 && c <= 4294967295 && forall k | 0 <= k < |ids| :: ids[k] <= 4294967295
    case Tuple(es) => |es| <= 2147483647 && forall e | e in es :: Writable(e)
    case List(es) => |es| <= 4294967295 && forall e | e in es :: Writable(e)
    case Var(_, _) => false
  }

  lemma {:induction false} EncodableIff(t: Term)
    ensures Encodable(t) <==> Writable(t)
  {
    match t
    case Tuple(es) => AllEncodableIff(es);
    case List(es) => AllEncodableIff(es);
    case _ =>
  }

  lemma {:induction false} AllEncodableIff(ts: seq<Term>)
    ensures (forall t | t in ts :: Encodable(t)) <==> forall t | t in ts :: Writable(t)
  {
    forall t | t in ts ensures Encodable(t) <==> Writable(t) {
      EncodableIff(t);
    }
  }

  // ----- which form is written -----

  /** Little-endian digits of `u` without a leading zero. */
  ghost predicate DigitsOf(d: Bytes, u: nat) {
    Unsigned(d) == u && (d != [] ==> d[|d| - 1] != 0)
  }

  lemma {:induction false} MagnitudeIs(n: nat)
    ensures DigitsOf(Magnitude(n), n)
  {
    if n > 0 {
      var rest := Magnitude(n / 256);
      MagnitudeIs(n / 256);
      UnsignedFront([n % 256] + rest);
      assert ([n % 256] + rest)[1..] == rest;
    }
  }

  /** Eight bits unsigned, 28 bits signed, or the bytes of the absolute value behind its sign. */
  ghost predicate LongForm(i: int, f: Form) {
    if 0 <= i <= 255 then f == SmallInteger(i)
    else if -134217728 <= i <= 134217727 then f == Integer(i)
    else f.Big? && !f.large && f.sign == (if i < 0 then 1 else 0) && DigitsOf(f.digits, if i < 0 then -i else i)
  }

  /** One length byte up to 255 bytes, two from there on. */
  function AtomChoice(n: Name): Form {
    AtomForm(if |n| <= 255 then Label(SmallUtf8, n) else Label(Utf8, n))
  }

  function SmallIntegerForms(s: Bytes): (r: seq<Wire>)
    ensures |r| == |s|
  {
    if s == [] then [] else [Simple(SmallInteger(s[0]))] + SmallIntegerForms(s[1..])
  }

  /** The form in which a term is written. */
  ghost predicate Chosen(t: Term, w: Wire)
    decreases t, 0
  {
    match t
    case Long(i) => w.Simple? && LongForm(i, w.form)
    case Bool(b) =>
      w == Simple(AtomForm(Label(SmallUtf8, if b then [116, 114, 117, 101] else [102, 97, 108, 115, 101])))
    case Atom(n) => w == Simple(AtomChoice(n))
    case Str(s) =>
      if s == [] then w == Simple(Nil)
      else if |s| <= 65535 then w == Simple(StringForm(s))
      else w == ListForm(SmallIntegerForms(s))
    case Binary(d) => w == Simple(BinaryForm(d))
    case Pid(n, id, serial, c) => w == Simple(NewPid(Label(Utf8, n), id, serial, c))
    case Ref(n, ids, c) => w == Simple(NewerRef(Label(Utf8, n), c, ids))
    case Tuple(es) => w.TupleForm? && (w.large <==> |es| > 255) && AllChosen(es, w.items)
    case List(es) => if es == [] then w == Simple(Nil) else w.ListForm? && AllChosen(es, w.items)
    case Var(_, _) => false
  }

  ghost predicate AllChosen(ts: seq<Term>, ws: seq<Wire>)
    decreases ts, 1
  {
    |ws| == |ts| && (ts == [] || (Chosen(ts[0], ws[0]) && AllChosen(ts[1..], ws[1..])))
  }

  // ----- encoding writes it -----

  lemma LongSpells(i: int) returns (f: Form)
    requires -9223372036854775808 <= i <= 9223372036854775807
    ensures LongForm(i, f) && FormFits(f) && SpellForm(f) == EncodeLong(i)
  {
    if 0 <= i <= 255 {
      f := SmallInteger(i);
    } else if -134217728 <= i <= 134217727 {
      f := Integer(i);
      B4IsBe32(if i < 0 then i + 4294967296 else i);
    } else {
      var u := if i < 0 then -i else i;
      f := Big(false, if i < 0 then 1 else 0, Magnitude(u));
      MagnitudeFits(u, 8);
      MagnitudeIs(u);
    }
  }

  lemma AtomSpells(n: Name)
    requires ValidName(n)
    ensures FormFits(AtomChoice(n)) && SpellForm(AtomChoice(n)) == EncodeAtom(n)
  {
  }

  lemma {:induction false} WordsSpell(ws: seq<nat>)
    requires AllWords(ws)
    ensures SpellWords(ws) == EncodeWords(ws)
  {
    if ws != [] {
      B4IsBe32(ws[0]);
      WordsSpell(ws[1..]);
    }
  }

  lemma PidSpells(n: Name, id: nat, serial: nat, c: nat)
    requires Encodable(Pid(n, id, serial, c))
    ensures var f := NewPid(Label(Utf8, n), id, serial, c);
      FormFits(f) && SpellForm(f) == Encode(Pid(n, id, serial, c))
  {
    WordsSpell([id, serial, c]);
    ThreeWordsAre(id, serial, c);
    Regroup([88], EncodeNode(n), B4(id) + B4(serial), B4(c), EncodeWords([id, serial, c]));
  }

  lemma ThreeWordsAre(id: nat, serial: nat, c: nat)
    requires Word(id) && Word(serial) && Word(c)
    ensures SpellWords([id, serial, c]) == (B4(id) + B4(serial)) + B4(c)
  {
    assert [id, serial, c][1..] == [serial, c] && [serial, c][1..] == [c] && [c][1..] == [];
    assert SpellWords([c]) == B4(c);
    assert SpellWords([serial, c]) == B4(serial) + B4(c);
  }

  lemma Regroup(t: Bytes, n: Bytes, u: Bytes, c: Bytes, w: Bytes)
    requires w == u + c
    ensures t + n + u + c == t + n + w
  {
  }

  lemma RefSpells(n: Name, ids: seq<nat>, c: nat)
    requires Encodable(Ref(n, ids, c))
    ensures var f := NewerRef(Label(Utf8, n), c, ids);
      FormFits(f) && SpellForm(f) == Encode(Ref(n, ids, c))
  {
    var all := [c] + ids;
    assert all[1..] == ids;
    WordsSpell(all);
    B4IsBe32(c);
    WordsSpell(ids);
    Regroup([90] + B2(|ids|), EncodeNode(n), B4(c), SpellWords(ids), EncodeWords(all));
  }

  lemma {:induction false} StringSpells(s: Bytes)
    ensures AllFit(SmallIntegerForms(s)) && SpellAll(SmallIntegerForms(s)) == SmallIntegers(s)
  {
    if s != [] {
      StringSpells(s[1..]);
      assert SmallIntegerForms(s)[1..] == SmallIntegerForms(s[1..]);
    }
  }

  /** What a form looks like when it is the one that encoding writes for `t`. */
  ghost predicate Writes(t: Term, w: Wire) {
    Chosen(t, w) && Fits(w) && Encodable(t) && Encode(t) == Spell(w)
  }

  lemma LeafSpells(t: Term) returns (w: Wire)
    requires Encodable(t) && !t.Tuple? && !t.List?
    ensures Writes(t, w)
  {
    match t
    case Long(i) =>
      var f := LongSpells(i);
      w := Simple(f);
    case Bool(b) =>
      ShortNamesAreValid(BoolName(b));
      w := Simple(AtomChoice(BoolName(b)));
    case Atom(n) =>
      AtomSpells(n);
      w := Simple(AtomChoice(n));
    case Str(s) =>
      w := TextSpells(s);
    case Binary(d) =>
      B4IsBe32(|d|);
      w := Simple(BinaryForm(d));
    case Pid(n, id, serial, c) =>
      PidSpells(n, id, serial, c);
      w := Simple(NewPid(Label(Utf8, n), id, serial, c));
    case Ref(n, ids, c) =>
      RefSpells(n, ids, c);
      w := Simple(NewerRef(Label(Utf8, n), c, ids));
  }

  lemma TextSpells(s: Bytes) returns (w: Wire)
    requires Encodable(Str(s))
    ensures Writes(Str(s), w)
  {
    if s == [] {
      w := Simple(Nil);
    } else if |s| <= 65535 {
      w := Simple(StringForm(s));
    } else {
      w := ListForm(SmallIntegerForms(s));
      B4IsBe32(|s|);
      StringSpells(s);
    }
  }

  /** Encoding writes the chosen form, byte for byte. */
  lemma {:induction false} EncodeSpellsChoice(t: Term) returns (w: Wire)
    requires Encodable(t)
    ensures Chosen(t, w) && Fits(w) && Encode(t) == Spell(w)
    decreases t, 0
  {
    if t.Tuple? {
      var ws := EncodeSpellsAll(t.elems);
      w := TupleForm(|ws| > 255, ws);
      if |ws| > 255 { B4IsBe32(|ws|); }
    } else if t.List? && t.elems != [] {
      var ws := EncodeSpellsAll(t.elems);
      w := ListForm(ws);
      B4IsBe32(|ws|);
    } else if t.List? {
      w := Simple(Nil);
    } else {
      w := LeafSpells(t);
    }
  }

  lemma {:induction false} EncodeSpellsAll(ts: seq<Term>) returns (ws: seq<Wire>)
    requires forall t | t in ts :: Encodable(t)
    ensures AllChosen(ts, ws) && AllFit(ws) && EncodeAll(ts) == SpellAll(ws)
    decreases ts, 1
  {
    if ts == [] {
      ws := [];
    } else {
      var w := EncodeSpellsChoice(ts[0]);
      var rest := EncodeSpellsAll(ts[1..]);
      ws := [w] + rest;
      assert ws[1..] == rest;
    }
  }
}
