/**
 * Where parsing undoes printing, exactly: for any nested term in any layout, the parser
 * returns the term and stops behind it if and only if every leaf of it is readable and no
 * list in it is written with a tail; and what it does with tails and with based numbers.
 */
module TextExact {
  import opened Slices
  import opened Terms
  import opened Text
  import opened TextTokens
  import opened TextRoundTrip

  // ----- what can be printed -----

  /** Leaves that `dump` prints as a token of their own. */
  predicate LeafPrintable(t: Term) {
    match t
    case Long(i) => LONG_MIN <= i <= LONG_MAX
    case Bool(_) => true
    case Atom(n) => ValidName(n)
    case Str(_) => true
    case Binary(_) => true
    case Var(_, _) => true
    case _ => false
  }

  predicate Printable(t: Term) {
    match t
    case Tuple(es) => forall e | e in es :: Printable(e)
    case List(es) => forall e | e in es :: Printable(e)
    case _ => LeafPrintable(t)
  }

  /** A layout of printable leaves, whether or not they can be read. */
  predicate Filled(l: Layout)
    decreases l, 0
  {
    match l
    case Leaf(t) => LeafPrintable(t)
    case Nest(_, items, close) => Filler(close, false) && FilledItems(items)
    case Tailed(items, bar, lead, tail, close) => FilledItems(items) && FilledTail(bar, lead, tail, close)
  }

  predicate FilledTail(bar: Chars, lead: Chars, tail: Term, close: Chars) {
    Filler(bar, false) && Filler(lead, false) && Filler(close, false) && tail.Var?
  }

  predicate FilledItems(items: seq<Item>)
    decreases items, 1
  {
    items == [] || (FilledItem(items[0]) && FilledItems(items[1..]))
  }

  predicate FilledItem(x: Item)
    decreases x, 0
  {
    Filler(x.before, false) && Filler(x.after, false) && Filled(x.node)
  }

  // ----- tokens -----

  lemma QuotedEnd(s: Chars, i: nat, q: Byte, failure: Failure, w: Chars)
    requires i < |s| && q != 0
    requires ParseQuoted(s, i, q, failure).Ok? && ParseQuoted(s, i, q, failure).value == w
    ensures ParseQuoted(s, i, q, failure) == Ok(w, i + |w| + 2)
  {
  }

  lemma QuotedExact(s: Chars, i: nat, w: Chars, q: Byte, failure: Failure)
    requires Matches(s, i, [q] + w + [q]) && 0 !in w && q != 0 && q != BACKSLASH
    requires ParseQuoted(s, i, q, failure).Ok? && ParseQuoted(s, i, q, failure).value == w
    ensures QuoteSafe(w, q)
  {
    QuotedEnd(s, i, q, failure, w);
    QuotedReads(s, i, w, q, failure);
  }

  lemma BareExact(s: Chars, i: nat, n: Name)
    requires n != [] && IsLower(n[0]) && Matches(s, i, n)
    requires ParseAtom(s, i).Ok? && ParseAtom(s, i).value == Atom(n)
    ensures BareAtom(n)
  {
    MatchesAt(s, i, n, 0);
    assert Skip(s, i, false) == i;
    SpanInClass(s, i, AtomChars);
    var e := Span(s, i, AtomChars);
    assert s[i..e] == n;
    forall c | c in n ensures InClass(c, AtomChars) {
      var k :| 0 <= k < |n| && n[k] == c;
      assert s[i + k] == c;
    }
  }

  lemma SliceEnd(r: Parsed<Term>, found: Option<nat>, s: Chars, b: nat, d: seq<Byte>)
    requires found.Some? ==> b <= found.value <= |s|
    requires r == match found
                  case None => Err(UnclosedBinary)
                  case Some(e) => Ok(Binary(s[b..e]), e + 3)
    ensures r.Ok? && r.value == Binary(d) ==> r.pos == b + |d| + 3
  {
  }

  lemma TextBinaryEnd(s: Chars, i: nat, d: seq<Byte>)
    requires i + 2 < |s| && s[i] == LESS && s[i + 1] == LESS && s[i + 2] == DQUOTE
    requires ParseSimple(s, i).Ok? && ParseSimple(s, i).value == Binary(d)
    ensures ParseSimple(s, i).pos == i + |d| + 6
  {
    ParseTextBinary(s, i);
    SliceEnd(ParseSimple(s, i), FindText(s, i + 3, CLOSE_TEXT), s, i + 3, d);
  }

  lemma TextBinaryExact(s: Chars, i: nat, d: seq<Byte>)
    requires PrintsAsText(d) && Matches(s, i, PrintBinary(d))
    requires ParseSimple(s, i).Ok? && ParseSimple(s, i).value == Binary(d)
    ensures BinaryReadable(d)
  {
    TextBinaryShape(s, i, d);
    TextBinaryEnd(s, i, d);
    TextBinaryReads(s, i, d);
  }

  lemma AtomExact(s: Chars, i: nat, n: Name)
    requires ValidName(n) && Matches(s, i, PrintAtom(n))
    requires ParseSimple(s, i).Ok? && ParseSimple(s, i).value == Atom(n)
    ensures AtomReadable(n)
  {
    MatchesAt(s, i, PrintAtom(n), 0);
    AtomHasNoNul(s, i, n);
    CStrOfNulFree(n);
    if PrintsQuoted(n) {
      QuotedExact(s, i, n, QUOTE, UnclosedAtom);
    } else {
      BareExact(s, i, n);
    }
  }

  lemma AtomHasNoNul(s: Chars, i: nat, n: Name)
    requires i < |s| && s[i] == (if PrintsQuoted(n) then QUOTE else n[0])
    requires ParseSimple(s, i).Ok? && ParseSimple(s, i).value == Atom(n)
    ensures 0 !in n
  {
    if PrintsQuoted(n) { QuotedHasNoNul(s, i, QUOTE, UnclosedAtom); } else { BareHasNoNul(s, i); }
  }

  lemma StringExact(s: Chars, i: nat, w: Chars)
    requires Matches(s, i, PrintString(w))
    requires ParseSimple(s, i).Ok? && ParseSimple(s, i).value == Str(w)
    ensures QuoteSafe(w, DQUOTE)
  {
    MatchesAt(s, i, PrintString(w), 0);
    QuotedHasNoNul(s, i, DQUOTE, UnclosedString);
    CStrOfNulFree(w);
    QuotedExact(s, i, w, DQUOTE, UnclosedString);
  }

  /** If a printed token yields its own value, wherever the parser stopped, it is readable. */
  lemma LeafExact(s: Chars, i: nat, t: Term)
    requires LeafPrintable(t) && !t.Var? && Matches(s, i, Print(t))
    requires ParseSimple(s, i).Ok? && ParseSimple(s, i).value == ReadBack(t)
    ensures LeafReadable(t)
  {
    match t
    case Atom(n) => AtomExact(s, i, n);
    case Str(w) => StringExact(s, i, w);
    case Binary(d) => if PrintsAsText(d) { TextBinaryExact(s, i, d); }
    case _ =>
  }

  lemma LeafStarts(t: Term)
    requires LeafPrintable(t) && !t.Var?
    ensures Print(t) != [] && Starts(Print(t)[0]) && Print(t)[0] !in {LBRACE, LBRACKET}
  {
    if t.Long? { LongIsDigits(t.value); }
  }

  // ----- what the parser can yield at all -----

  /** Every variable in the term is one that the parser can read. */
  predicate GoodVars(t: Term) {
    match t
    case Var(n, ty) => VarReadable(n, ty)
    case Tuple(es) => forall e | e in es :: GoodVars(e)
    case List(es) => forall e | e in es :: GoodVars(e)
    case _ => true
  }

  predicate AllGoodVars(ts: seq<Term>) {
    forall t | t in ts :: GoodVars(t)
  }

  ghost predicate YieldsGoodVars(simple: SimpleParser) {
    forall j: nat :: simple(j).Ok? ==> GoodVars(simple(j).value)
  }

  lemma VariableIsGood(s: Chars, i: nat)
    requires i < |s| && (IsUpper(s[i]) || s[i] == UNDERSCORE)
    ensures ParseVariable(s, i).Ok? ==> GoodVars(ParseVariable(s, i).value)
  {
    SpanInClass(s, i, VarChars);
    var e := Span(s, i, VarChars);
    assert e > i && s[i..e][0] == s[i];
  }

  lemma SimpleIsGood(s: Chars)
    ensures YieldsGoodVars(Simple(s))
  {
    forall j: nat | Simple(s)(j).Ok? ensures GoodVars(Simple(s)(j).value) {
      var c := CharAt(s, j);
      if IsUpper(c) || c == UNDERSCORE { VariableIsGood(s, j); }
    }
  }

  lemma {:induction false} TermIsGood(s: Chars, simple: SimpleParser, i: nat)
    requires i <= |s| && Advances(s, simple) && YieldsGoodVars(simple)
    ensures TermAt(s, simple, i).Ok? ==> GoodVars(TermAt(s, simple, i).value)
    decreases |s| - i, 1
  {
    var j := Skip(s, i, false);
    if CharAt(s, j) == LBRACE {
      ItemsAreGood(s, simple, j + 1, RBRACE, []);
    } else if CharAt(s, j) == LBRACKET {
      ItemsAreGood(s, simple, j + 1, RBRACKET, []);
    }
  }

  /** Items are only ever added behind those collected before. */
  lemma {:induction false} ItemsAreGood(s: Chars, simple: SimpleParser, i: nat, close: Byte, acc: seq<Term>)
    requires i <= |s| && close != 0 && Advances(s, simple) && YieldsGoodVars(simple)
    requires AllGoodVars(acc)
    ensures var r := ItemsAt(s, simple, i, close, acc); r.Ok? ==> acc <= r.value && AllGoodVars(r.value)
    decreases |s| - i, 2
  {
    var j := Skip(s, i, false);
    var c := CharAt(s, j);
    if c == close {
    } else if c == COMMA {
      ItemsAreGood(s, simple, j + 1, close, acc);
    } else if c == PIPE && close == RBRACKET {
    } else {
      TermIsGood(s, simple, j);
      var t := TermAt(s, simple, j);
      if t.Ok? {
        ItemsAreGood(s, simple, t.pos, close, acc + [t.value]);
      }
    }
  }

  // ----- nested terms -----

  /** The printed token `t` at `i` yields its own value, wherever the parser stopped. */
  ghost predicate Yields(t: Term, s: Chars, simple: SimpleParser, i: nat) {
    LeafPrintable(t) && !t.Var? && Matches(s, i, Print(t)) && simple(i).Ok? && simple(i).value == ReadBack(t)
  }

  ghost predicate ExactTokens(s: Chars, simple: SimpleParser) {
    forall t, i: nat {:trigger Yields(t, s, simple, i)} :: Yields(t, s, simple, i) ==> LeafReadable(t)
  }

  ghost predicate RefusesBracket(s: Chars, simple: SimpleParser) {
    forall i: nat {:trigger simple(i)} :: CharAt(s, i) == RBRACKET ==> simple(i).Err?
  }

  /** All that the exactness of nested terms asks of the parser of simple ones. */
  ghost predicate Exact(s: Chars, simple: SimpleParser) {
    && Advances(s, simple) && ReadsTokens(s, simple) && YieldsGoodVars(simple) && ExactTokens(s, simple)
    && RefusesBracket(s, simple)
  }

  lemma SimpleIsExact(s: Chars)
    ensures Exact(s, Simple(s))
  {
    SimpleReadsTokens(s);
    SimpleIsGood(s);
    forall t, i: nat | Yields(t, s, Simple(s), i) ensures LeafReadable(t) {
      LeafExact(s, i, t);
    }
  }

  lemma NodeStarts(l: Layout)
    requires Filled(l) && GoodVars(Denotes(l))
    ensures Render(l) != [] && Starts(Render(l)[0])
  {
    if l.Leaf? {
      if l.term.Var? { TokenStarts(l.term); } else { LeafStarts(l.term); }
    }
  }

  // ----- tails -----

  lemma FirstDenoted(items: seq<Item>, acc: seq<Term>, acc': seq<Term>, v: seq<Term>)
    requires items != [] && v == acc + DenotesAll(items) && acc' == acc + [Denotes(items[0].node)]
    ensures |v| > |acc| && v[|acc|] == Denotes(items[0].node) && v == acc' + DenotesAll(items[1..])
  {
    OneMore(acc, DenotesAll(items));
  }

  /** What stands around the bar and the tail that start at `i`. */
  lemma TailFrame(bar: Chars, lead: Chars, tail: Term, close: Chars, s: Chars, i: nat, p: nat, q: nat, e: nat)
    requires FilledTail(bar, lead, tail, close) && Matches(s, i, RenderTail(bar, lead, tail, close))
    requires p == i + |bar| && q == p + 1 + |lead| && e == q + |Print(tail)| + |close|
    ensures e < |s| && s[p] == PIPE && s[e] == RBRACKET && e + 1 == i + |RenderTail(bar, lead, tail, close)|
    ensures Delimiter(CharAt(s, i)) && Skip(s, i, false) == p
    ensures Matches(s, p + 1, lead) && Matches(s, q, Print(tail))
    ensures Delimiter(CharAt(s, q + |Print(tail)|)) && Skip(s, q + |Print(tail)|, false) == e
  {
    var w := lead + Print(tail) + close + [RBRACKET];
    BarFrame(bar, w, s, i, p);
    WordFrame(lead, Print(tail), close, s, p + 1, q, e);
  }

  lemma BarFrame(bar: Chars, w: Chars, s: Chars, i: nat, p: nat)
    requires Filler(bar, false) && Matches(s, i, bar + [PIPE] + w) && p == i + |bar|
    ensures p < |s| && s[p] == PIPE && Matches(s, p + 1, w)
    ensures Delimiter(CharAt(s, i)) && Skip(s, i, false) == p
  {
    ThreeParts(s, i, bar, [PIPE], w);
    MatchesAt(s, p, [PIPE], 0);
    FillerThen(bar, s, i);
  }

  lemma WordFrame(lead: Chars, word: Chars, close: Chars, s: Chars, i: nat, q: nat, e: nat)
    requires Filler(lead, false) && Filler(close, false) && Matches(s, i, lead + word + close + [RBRACKET])
    requires q == i + |lead| && e == q + |word| + |close|
    ensures e < |s| && s[e] == RBRACKET && Matches(s, i, lead) && Matches(s, q, word)
    ensures Delimiter(CharAt(s, q + |word|)) && Skip(s, q + |word|, false) == e
  {
    FourParts(s, i, lead, word, close, [RBRACKET]);
    MatchesAt(s, e, [RBRACKET], 0);
    FillerThen(close, s, q + |word|);
  }

  /** Filler in front of punctuation. */
  lemma FillerThen(f: Chars, s: Chars, i: nat)
    requires Filler(f, false) && Matches(s, i, f)
    requires i + |f| < |s| && s[i + |f|] in {PIPE, RBRACKET}
    ensures Skip(s, i, false) == i + |f| && Delimiter(CharAt(s, i))
  {
    SkipFiller(s, i, f, false);
    if f != [] {
      MatchesAt(s, i, f, 0);
      FillerHead(f);
    }
  }

  /** A readable tail ends the list, with the cursor on the bracket. */
  lemma TailReads(bar: Chars, lead: Chars, tail: Term, close: Chars, s: Chars, simple: SimpleParser, i: nat,
                  acc: seq<Term>, e: nat)
    requires Advances(s, simple) && ReadsTokens(s, simple)
    requires FilledTail(bar, lead, tail, close) && LeafReadable(tail)
    requires Matches(s, i, RenderTail(bar, lead, tail, close)) && e + 1 == i + |RenderTail(bar, lead, tail, close)|
    ensures ItemsAt(s, simple, i, RBRACKET, acc) == Ok(acc + [tail], e)
  {
    var p := i + |bar|;
    var q := p + 1 + |lead|;
    var k := q + |Print(tail)|;
    TailFrame(bar, lead, tail, close, s, i, p, q, e);
    VarReadsAt(tail, s, simple, q, k);
    TailWord(lead, s, simple, i, p, q, acc, tail, k, e);
  }

  lemma TailWord(
      lead: Chars, s: Chars, simple: SimpleParser, i: nat, p: nat, q: nat, acc: seq<Term>, v: Term, k: nat, e: nat)
    requires Advances(s, simple) && Filler(lead, false) && Matches(s, p + 1, lead) && q == p + 1 + |lead| < |s|
    requires i <= |s| && Skip(s, i, false) == p && s[p] == PIPE
    requires Skip(s, q, false) == q && (IsUpper(s[q]) || s[q] == UNDERSCORE)
    requires simple(q) == Ok(v, k) && Skip(s, k, false) == e < |s| && s[e] == RBRACKET
    ensures ItemsAt(s, simple, i, RBRACKET, acc) == Ok(acc + [v], e)
  {
    SkipFiller(s, p + 1, lead, false);
    TailToken(s, simple, i, p, q, acc, v, k, e);
  }

  lemma VarReadsAt(v: Term, s: Chars, simple: SimpleParser, q: nat, k: nat)
    requires ReadsTokens(s, simple) && v.Var? && LeafReadable(v) && Matches(s, q, Print(v))
    requires k == q + |Print(v)| && Delimiter(CharAt(s, k))
    ensures q < |s| && (IsUpper(s[q]) || s[q] == UNDERSCORE) && Skip(s, q, false) == q
    ensures simple(q) == Ok(v, k)
  {
    MatchesAt(s, q, Print(v), 0);
    assert TokenHere(v, s, q);
  }

  lemma TailToken(s: Chars, simple: SimpleParser, i: nat, p: nat, q: nat, acc: seq<Term>, v: Term, k: nat, e: nat)
    requires Advances(s, simple)
    requires i <= |s| && Skip(s, i, false) == p < |s| && s[p] == PIPE
    requires Skip(s, p + 1, false) == q < |s| && (IsUpper(s[q]) || s[q] == UNDERSCORE)
    requires simple(q) == Ok(v, k) && Skip(s, k, false) == e < |s| && s[e] == RBRACKET
    ensures ItemsAt(s, simple, i, RBRACKET, acc) == Ok(acc + [v], e)
  {
    assert TailAt(s, simple, p + 1, acc) == Ok(acc + [v], e);
  }

  lemma TailedFrame(l: Layout, s: Chars, i: nat, e: nat)
    requires l.Tailed? && Filled(l) && Matches(s, i, Render(l)) && e == i + 1 + |RenderItems(l.items, true)|
    ensures i + 1 < |s| && s[i] == LBRACKET && Skip(s, i, false) == i
    ensures Matches(s, i + 1, RenderItems(l.items, true)) && Delimiter(CharAt(s, e))
    ensures Matches(s, e, RenderTail(l.bar, l.lead, l.tail, l.close))
    ensures i + |Render(l)| == e + |RenderTail(l.bar, l.lead, l.tail, l.close)| <= |s|
  {
    ThreeParts(s, i, [LBRACKET], RenderItems(l.items, true), RenderTail(l.bar, l.lead, l.tail, l.close));
    MatchesAt(s, i, [LBRACKET], 0);
    var p := e + |l.bar|;
    var q := p + 1 + |l.lead|;
    TailFrame(l.bar, l.lead, l.tail, l.close, s, e, p, q, q + |Print(l.tail)| + |l.close|);
  }

  /** A list closes on the bracket that a tail has left; a tuple fails on it. */
  lemma LeftOverBracket(b: bool, s: Chars, simple: SimpleParser, i: nat, acc: seq<Term>, q: nat)
    requires Advances(s, simple) && RefusesBracket(s, simple)
    requires i <= |s| && Skip(s, i, false) == q < |s| && s[q] == RBRACKET
    ensures var r := ItemsAt(s, simple, i, Closer(b), acc); if b then r.Err? else r == Ok(acc, q + 1)
  {
    assert Skip(s, q, false) == q;
  }

  // ----- where tails do no worse than stop short -----

  /** Readable but for a tail at the very end: in the list itself, or in its last element. */
  predicate Trailing(l: Layout)
    decreases l, 0
  {
    match l
    case Leaf(_) => false
    case Nest(b, items, _) => !b && TrailingItems(items)
    case Tailed(items, _, _, tail, _) => LaidItems(items) && LeafReadable(tail)
  }

  predicate TrailingItems(items: seq<Item>)
    decreases items, 1
  {
    && items != []
    && if |items| == 1 then TrailingItem(items[0]) else LaidItem(items[0]) && TrailingItems(items[1..])
  }

  predicate TrailingItem(x: Item)
    decreases x, 0
  {
    Trailing(x.node)
  }

  /** How far a trailing layout is read: to its bracket, or to the end of its last element. */
  function Reach(l: Layout): nat
    requires Trailing(l)
  {
    match l
    case Nest(_, items, _) => 1 + ItemsReach(items, true)
    case Tailed(_, _, _, _, _) => |Render(l)| - 1
  }

  function ItemsReach(items: seq<Item>, first: bool): nat {
    if items == [] then 0
    else
      var x := items[0];
      var k' := (if first then 0 else 1) + |x.before| + |Render(x.node)|;
      if |items| == 1 then k' else k' + |x.after| + ItemsReach(items[1..], false)
  }

  lemma ReachOfOne(items: seq<Item>, first: bool, i: nat, k: nat, k': nat)
    requires |items| == 1
    requires k == i + |items[0].before| + (if first then 0 else 1) && k' == k + |Render(items[0].node)|
    ensures i + ItemsReach(items, first) == k' && items[1..] == []
  {
  }

  lemma ReachOfMore(items: seq<Item>, first: bool, i: nat, k: nat, k': nat)
    requires |items| > 1
    requires k == i + |items[0].before| + (if first then 0 else 1) && k' == k + |Render(items[0].node)|
    ensures i + ItemsReach(items, first) == k' + |items[0].after| + ItemsReach(items[1..], false)
  {
  }

  /** What is left of the items is filler. */
  lemma {:induction false} ItemsLeftOver(items: seq<Item>, first: bool, s: Chars, i: nat, end: nat)
    requires items != [] && FilledItems(items)
    requires Matches(s, i, RenderItems(items, first)) && end == i + |RenderItems(items, first)|
    requires Delimiter(CharAt(s, end))
    ensures i + ItemsReach(items, first) <= end <= |s|
    ensures Skip(s, i + ItemsReach(items, first), false) == Skip(s, end, false)
    decreases |items|
  {
    var x := items[0];
    var k := i + |x.before| + (if first then 0 else 1);
    var k' := k + |Render(x.node)|;
    HeadItem(items, first, s, i, end, k, k');
    if |items| == 1 {
      ReachOfOne(items, first, i, k, k');
      assert RenderItems(items[1..], false) == [];
      SkipFiller(s, k', x.after, false);
    } else {
      ReachOfMore(items, first, i, k, k');
      ItemsLeftOver(items[1..], false, s, k' + |x.after|, end);
    }
  }

  lemma NestLeftOver(l: Layout, s: Chars, i: nat)
    requires l.Nest? && Filled(l) && Trailing(l) && Matches(s, i, Render(l))
    ensures var q := i + |Render(l)| - 1;
      && i + Reach(l) <= q < |s| && s[q] == RBRACKET
      && Skip(s, i + Reach(l), false) == q
  {
    var body := RenderItems(l.items, true);
    var e := i + 1 + |body|;
    NestFrame(l.isTuple, body, l.close, s, i, e);
    ItemsLeftOver(l.items, true, s, i + 1, e);
  }

  lemma TailedLeftOver(l: Layout, s: Chars, i: nat)
    requires l.Tailed? && Filled(l) && Matches(s, i, Render(l))
    ensures var q := i + |Render(l)| - 1; 0 <= q < |s| && s[q] == RBRACKET && Skip(s, q, false) == q
  {
    var e := i + 1 + |RenderItems(l.items, true)|;
    TailedFrame(l, s, i, e);
    var p := e + |l.bar|;
    var q := p + 1 + |l.lead|;
    TailFrame(l.bar, l.lead, l.tail, l.close, s, e, p, q, q + |Print(l.tail)| + |l.close|);
  }

  /** Behind what a trailing layout reaches, its closing bracket is next. */
  lemma LeftOver(l: Layout, s: Chars, i: nat)
    requires Filled(l) && Trailing(l) && Matches(s, i, Render(l))
    ensures var q := i + |Render(l)| - 1;
      && i + Reach(l) <= q < |s| && s[q] == RBRACKET
      && Skip(s, i + Reach(l), false) == q
  {
    if l.Nest? { NestLeftOver(l, s, i); } else { TailedLeftOver(l, s, i); }
  }

  /** What happens where the parser left a trailing layout. */
  lemma TrailingTaken(l: Layout, b: bool, s: Chars, simple: SimpleParser, k: nat, acc: seq<Term>)
    requires Advances(s, simple) && RefusesBracket(s, simple)
    requires Filled(l) && Trailing(l) && Matches(s, k, Render(l)) && k + Reach(l) <= |s|
    ensures var r := ItemsAt(s, simple, k + Reach(l), Closer(b), acc);
      if b then r.Err? else r == Ok(acc, k + |Render(l)|)
  {
    LeftOver(l, s, k);
    LeftOverBracket(b, s, simple, k + Reach(l), acc, k + |Render(l)| - 1);
  }

  // ----- exactness -----

  /** What the parser collects next is what it reads where the item's token starts. */
  lemma ItemValue(x: Item, first: bool, b: bool, s: Chars, simple: SimpleParser, i: nat, k: nat, acc: seq<Term>)
    requires Advances(s, simple) && YieldsGoodVars(simple) && AllGoodVars(acc)
    requires Filler(x.before, false) && k == i + |x.before| + (if first then 0 else 1)
    requires first || (i < |s| && s[i] == COMMA)
    requires Matches(s, k - |x.before|, x.before) && k < |s| && Starts(s[k])
    requires ItemsAt(s, simple, i, Closer(b), acc).Ok?
    ensures var (r, t) := (ItemsAt(s, simple, i, Closer(b), acc), TermAt(s, simple, k));
            && t.Ok? && r == ItemsAt(s, simple, t.pos, Closer(b), acc + [t.value])
            && acc + [t.value] <= r.value
  {
    var i1 := k - |x.before|;
    if !first { AfterComma(s, simple, i, b, acc); }
    SkipFiller(s, i1, x.before, false);
    SameToken(s, simple, i1, k, Closer(b), acc);
    assert Skip(s, k, false) == k;
    var t := TermAt(s, simple, k);
    if t.Ok? {
      TermIsGood(s, simple, k);
      ItemsAreGood(s, simple, t.pos, Closer(b), acc + [t.value]);
    }
  }

  /** The term at `i` has the value of the layout: it was readable, or at least trailing. */
  ghost predicate ReadAs(l: Layout, s: Chars, simple: SimpleParser, i: nat)
    requires i <= |s| && Advances(s, simple)
  {
    Laid(l) || (Trailing(l) && TermAt(s, simple, i) == Ok(Denotes(l), i + Reach(l)))
  }

  lemma {:induction false} RenderExact(l: Layout, s: Chars, simple: SimpleParser, i: nat)
    requires Exact(s, simple) && Filled(l)
    requires Matches(s, i, Render(l)) && Delimiter(CharAt(s, i + |Render(l)|))
    requires TermAt(s, simple, i).Ok? && TermAt(s, simple, i).value == Denotes(l)
    ensures ReadAs(l, s, simple, i)
    decreases l, 0
  {
    TermIsGood(s, simple, i);
    NodeStarts(l);
    MatchesAt(s, i, Render(l), 0);
    assert Skip(s, i, false) == i;
    match l
    case Leaf(t) =>
      if !t.Var? {
        LeafStarts(t);
        assert Yields(t, s, simple, i);
      }
    case Nest(b, items, close) =>
      var body := RenderItems(items, true);
      var e := i + 1 + |body|;
      NestFrame(b, body, close, s, i, e);
      if b || s[i + 1] != RBRACKET {
        assert [] + DenotesAll(items) + [] == DenotesAll(items);
        ItemsExact(items, true, b, s, simple, i + 1, [], DenotesAll(items), [], e);
      } else {
        assert DenotesAll(items) == [];
      }
    case Tailed(items, bar, lead, tail, close) =>
      TailedExact(l, s, simple, i);
  }

  lemma {:induction false} TailedExact(l: Layout, s: Chars, simple: SimpleParser, i: nat)
    requires Exact(s, simple) && Filled(l) && l.Tailed?
    requires Matches(s, i, Render(l))
    requires TermAt(s, simple, i).Ok? && TermAt(s, simple, i).value == Denotes(l)
    ensures ReadAs(l, s, simple, i)
    decreases l.items, 2
  {
    var items := l.items;
    var e := i + 1 + |RenderItems(items, true)|;
    var v := DenotesAll(items) + [l.tail];
    TailedFrame(l, s, i, e);
    TermIsGood(s, simple, i);
    assert v[|v| - 1] == l.tail && GoodVars(v[|v| - 1]);
    assert [] + DenotesAll(items) == DenotesAll(items);
    ItemsExact(items, true, false, s, simple, i + 1, [], DenotesAll(items), [l.tail], e);
    TailReads(l.bar, l.lead, l.tail, l.close, s, simple, e, DenotesAll(items), i + |Render(l)| - 1);
  }

  /** How one item can have been read on the way to the value `v`. */
  ghost predicate ItemReadAs(
      x: Item, b: bool, s: Chars, simple: SimpleParser, k': nat, acc': seq<Term>, r: Parsed<seq<Term>>)
    requires k' + |x.after| <= |s| && Advances(s, simple)
  {
    if Laid(x.node) then r == ItemsAt(s, simple, k' + |x.after|, Closer(b), acc')
    else Trailing(x.node) && !b && r == Ok(acc', k')
  }

  /** Where one item stands: its filler and its token at `k`, ending at `k'`. */
  ghost predicate ItemHere(x: Item, first: bool, s: Chars, i: nat, k: nat, k': nat) {
    && k == i + |x.before| + (if first then 0 else 1) && k' == k + |Render(x.node)|
    && (first || (i < |s| && s[i] == COMMA))
    && Matches(s, k - |x.before|, x.before) && Matches(s, k', x.after)
    && Matches(s, k, Render(x.node)) && Delimiter(CharAt(s, k'))
  }

  lemma ItemPassed(
      x: Item, first: bool, b: bool, s: Chars, simple: SimpleParser, i: nat, k: nat, k': nat,
      acc: seq<Term>, acc': seq<Term>)
    requires Exact(s, simple) && FilledItem(x) && Laid(x.node) && ItemHere(x, first, s, i, k, k')
    requires acc' == acc + [Denotes(x.node)]
    ensures ItemsAt(s, simple, i, Closer(b), acc) == ItemsAt(s, simple, k' + |x.after|, Closer(b), acc')
  {
    ItemReads(x, first, b, s, simple, i, k, k', acc);
  }

  /** If the parser collects the item's term, that is what it read at the item's token. */
  lemma ItemTaken(
      x: Item, first: bool, b: bool, s: Chars, simple: SimpleParser, i: nat, k: nat, k': nat,
      acc: seq<Term>, acc': seq<Term>, r: Parsed<seq<Term>>)
    requires Exact(s, simple) && FilledItem(x) && AllGoodVars(acc) && ItemHere(x, first, s, i, k, k')
    requires ItemsAt(s, simple, i, Closer(b), acc) == r && r.Ok?
    requires |r.value| > |acc| && r.value[|acc|] == Denotes(x.node)
    requires acc' == acc + [Denotes(x.node)]
    ensures AllGoodVars(acc')
    ensures var t := TermAt(s, simple, k);
            t.Ok? && t.value == Denotes(x.node) && r == ItemsAt(s, simple, t.pos, Closer(b), acc')
  {
    ItemsAreGood(s, simple, i, Closer(b), acc);
    assert GoodVars(r.value[|acc|]);
    NodeStarts(x.node);
    MatchesAt(s, k, Render(x.node), 0);
    ItemValue(x, first, b, s, simple, i, k, acc);
  }

  lemma TrailingOutcome(
      x: Item, b: bool, s: Chars, simple: SimpleParser, k: nat, k': nat, acc': seq<Term>, r: Parsed<seq<Term>>)
    requires Advances(s, simple) && RefusesBracket(s, simple) && FilledItem(x) && !Laid(x.node)
    requires Matches(s, k, Render(x.node)) && k' == k + |Render(x.node)| && k' + |x.after| <= |s|
    requires Trailing(x.node) && k + Reach(x.node) <= |s|
    requires r == ItemsAt(s, simple, k + Reach(x.node), Closer(b), acc') && r.Ok?
    ensures ItemReadAs(x, b, s, simple, k', acc', r)
  {
    TrailingTaken(x.node, b, s, simple, k, acc');
  }

  /** One item: if the parser collects its term, the item is readable or trailing. */
  lemma {:induction false} ItemExact(
      x: Item, first: bool, b: bool, s: Chars, simple: SimpleParser, i: nat, k: nat, k': nat,
      acc: seq<Term>, acc': seq<Term>, r: Parsed<seq<Term>>)
    requires Exact(s, simple) && FilledItem(x) && AllGoodVars(acc) && ItemHere(x, first, s, i, k, k')
    requires ItemsAt(s, simple, i, Closer(b), acc) == r && r.Ok?
    requires |r.value| > |acc| && r.value[|acc|] == Denotes(x.node)
    requires acc' == acc + [Denotes(x.node)]
    ensures AllGoodVars(acc') && ItemReadAs(x, b, s, simple, k', acc', r)
    decreases x, 1
  {
    ItemTaken(x, first, b, s, simple, i, k, k', acc, acc', r);
    RenderExact(x.node, s, simple, k);
    if Laid(x.node) {
      ItemPassed(x, first, b, s, simple, i, k, k', acc, acc');
    } else {
      TrailingOutcome(x, b, s, simple, k, k', acc', r);
    }
  }

  /** How items can have been read on the way to the value `acc' + more`. */
  ghost predicate ItemsReadAs(
      items: seq<Item>, first: bool, b: bool, s: Chars, simple: SimpleParser, i: nat, acc': seq<Term>,
      more: seq<Term>, end: nat, r: Parsed<seq<Term>>)
    requires end <= |s| && Advances(s, simple)
  {
    if LaidItems(items) then r == ItemsAt(s, simple, end, Closer(b), acc')
    else TrailingItems(items) && !b && more == [] && r == Ok(acc', i + ItemsReach(items, first))
  }

  /** How the first item decides about all of them. */
  lemma FirstItemDecides(items: seq<Item>)
    requires items != [] && FilledItems(items)
    ensures !Laid(items[0].node) ==> !LaidItems(items)
    ensures Laid(items[0].node) ==> (LaidItems(items) <==> LaidItems(items[1..]))
    ensures Laid(items[0].node) && TrailingItems(items[1..]) ==> TrailingItems(items)
    ensures |items| == 1 && Trailing(items[0].node) ==> TrailingItems(items)
  {
    var x := items[0];
    assert FilledItem(x);
    assert LaidItem(x) <==> Laid(x.node);
  }

  lemma {:induction false} ItemsExact(
      items: seq<Item>, first: bool, b: bool, s: Chars, simple: SimpleParser, i: nat, acc: seq<Term>, acc': seq<Term>,
      more: seq<Term>, end: nat)
    requires Exact(s, simple) && FilledItems(items) && AllGoodVars(acc)
    requires Matches(s, i, RenderItems(items, first)) && end == i + |RenderItems(items, first)|
    requires Delimiter(CharAt(s, end))
    requires ItemsAt(s, simple, i, Closer(b), acc).Ok?
    requires acc' == acc + DenotesAll(items) && ItemsAt(s, simple, i, Closer(b), acc).value == acc' + more
    ensures ItemsReadAs(items, first, b, s, simple, i, acc', more, end, ItemsAt(s, simple, i, Closer(b), acc))
    decreases items, 1
  {
    if items == [] {
      assert acc' == acc;
    } else {
      var x, tail := items[0], items[1..];
      var r := ItemsAt(s, simple, i, Closer(b), acc);
      var mid := acc + [Denotes(x.node)];
      var k := i + |x.before| + (if first then 0 else 1);
      var k' := k + |Render(x.node)|;
      FirstDenoted(items, acc, mid, acc');
      HeadItem(items, first, s, i, end, k, k');
      assert FilledItem(x) && FilledItems(tail);
      ItemExact(x, first, b, s, simple, i, k, k', acc, mid, r);
      if Laid(x.node) {
        ItemsExact(tail, false, b, s, simple, k' + |x.after|, mid, acc', more, end);
        LaidFirst(items, first, b, s, simple, i, k, k', acc', more, end, r);
      } else {
        TrailingFirst(items, first, b, s, simple, i, k, k', mid, acc', more, end, r);
      }
    }
  }

  lemma LaidFirst(
      items: seq<Item>, first: bool, b: bool, s: Chars, simple: SimpleParser, i: nat, k: nat, k': nat, acc': seq<Term>,
      more: seq<Term>, end: nat, r: Parsed<seq<Term>>)
    requires Advances(s, simple) && items != [] && FilledItems(items) && Laid(items[0].node) && end <= |s|
    requires k == i + |items[0].before| + (if first then 0 else 1) && k' == k + |Render(items[0].node)|
    requires ItemsReadAs(items[1..], false, b, s, simple, k' + |items[0].after|, acc', more, end, r)
    ensures ItemsReadAs(items, first, b, s, simple, i, acc', more, end, r)
  {
    FirstItemDecides(items);
    if |items| > 1 {
      ReachOfMore(items, first, i, k, k');
    }
  }

  lemma TrailingFirst(
      items: seq<Item>, first: bool, b: bool, s: Chars, simple: SimpleParser, i: nat, k: nat, k': nat, mid: seq<Term>,
      acc': seq<Term>, more: seq<Term>, end: nat, r: Parsed<seq<Term>>)
    requires Advances(s, simple) && items != [] && FilledItems(items) && !Laid(items[0].node) && end <= |s|
    requires k == i + |items[0].before| + (if first then 0 else 1) && k' == k + |Render(items[0].node)|
    requires Trailing(items[0].node) && !b && r == Ok(mid, k')
    requires r.value == acc' + more && acc' == mid + DenotesAll(items[1..])
    ensures ItemsReadAs(items, first, b, s, simple, i, acc', more, end, r)
  {
    assert |DenotesAll(items[1..])| == 0 && more == [];
    assert items[1..] == [];
    FirstItemDecides(items);
    ReachOfOne(items, first, i, k, k');
    assert acc' == mid;
  }

  /** The parser goes over readable items, having collected their terms. */
  lemma {:induction false} ItemsPass(
      items: seq<Item>, first: bool, s: Chars, simple: SimpleParser, i: nat, acc: seq<Term>, acc': seq<Term>, end: nat)
    requires Exact(s, simple) && FilledItems(items) && LaidItems(items)
    requires Matches(s, i, RenderItems(items, first)) && end == i + |RenderItems(items, first)|
    requires Delimiter(CharAt(s, end)) && acc' == acc + DenotesAll(items)
    ensures ItemsAt(s, simple, i, RBRACKET, acc) == ItemsAt(s, simple, end, RBRACKET, acc')
    decreases items
  {
    if items == [] {
      assert acc' == acc;
    } else {
      var x := items[0];
      var mid := acc + [Denotes(x.node)];
      var k := i + |x.before| + (if first then 0 else 1);
      var k' := k + |Render(x.node)|;
      FirstDenoted(items, acc, mid, acc');
      HeadItem(items, first, s, i, end, k, k');
      var r := ItemsAt(s, simple, end, RBRACKET, acc');
      assert FilledItem(x) && FilledItems(items[1..]) && LaidItem(x) && LaidItems(items[1..]);
      ItemsPass(items[1..], false, s, simple, k' + |x.after|, mid, acc', end);
      assert ItemHere(x, first, s, i, k, k');
      FirstPasses(x, first, s, simple, i, k, k', acc, mid, r);
    }
  }

  // ----- trailing layouts are read -----

  lemma {:induction false} TrailingReads(l: Layout, s: Chars, simple: SimpleParser, i: nat)
    requires Exact(s, simple) && Filled(l) && Trailing(l) && Matches(s, i, Render(l))
    ensures TermAt(s, simple, i) == Ok(Denotes(l), i + Reach(l))
    decreases l, 0
  {
    match l
    case Nest(b, items, close) =>
      var body := RenderItems(items, true);
      var e := i + 1 + |body|;
      NestFrame(b, body, close, s, i, e);
      assert [] + DenotesAll(items) == DenotesAll(items);
      TrailingItemsRead(items, true, s, simple, i + 1, [], DenotesAll(items), e);
      NotClosedAtOnce(items, s, i + 1);
      NestReads(false, s, simple, i, DenotesAll(items), i + Reach(l));
    case Tailed(items, bar, lead, tail, close) =>
      var e := i + 1 + |RenderItems(items, true)|;
      var v := DenotesAll(items);
      TailedFrame(l, s, i, e);
      assert [] + v == v;
      ItemsPass(items, true, s, simple, i + 1, [], v, e);
      TailReads(bar, lead, tail, close, s, simple, e, v, i + |Render(l)| - 1);
      TailedNotClosed(l, s, i, e);
      NestReads(false, s, simple, i, v + [tail], i + Reach(l));
  }

  lemma TrailingOpens(l: Layout)
    requires Trailing(l)
    ensures Render(l) != [] && Render(l)[0] == LBRACKET
  {
  }

  /** Items do not start with a closing bracket. */
  lemma ItemsOpen(items: seq<Item>, s: Chars, i: nat)
    requires items != [] && Filler(items[0].before, false) && Matches(s, i, RenderItems(items, true))
    requires Render(items[0].node) != [] && Starts(Render(items[0].node)[0])
    ensures i < |s| && s[i] != RBRACKET
  {
    var x := items[0];
    var w := RenderItems(items, true);
    assert w[0] == (x.before + Render(x.node))[0];
    MatchesAt(s, i, w, 0);
    if x.before != [] { FillerHead(x.before); }
  }

  lemma NotClosedAtOnce(items: seq<Item>, s: Chars, i: nat)
    requires FilledItems(items) && (TrailingItems(items) || (items != [] && LaidItems(items)))
    requires Matches(s, i, RenderItems(items, true))
    ensures i < |s| && s[i] != RBRACKET
  {
    var x := items[0];
    assert FilledItem(x) && (LaidItem(x) || TrailingItem(x));
    if LaidItem(x) { RenderStarts(x.node); } else { TrailingOpens(x.node); }
    ItemsOpen(items, s, i);
  }

  lemma TailedNotClosed(l: Layout, s: Chars, i: nat, e: nat)
    requires l.Tailed? && Filled(l) && Trailing(l) && Matches(s, i, Render(l))
    requires e == i + 1 + |RenderItems(l.items, true)|
    ensures i + 1 < |s| && s[i + 1] != RBRACKET
  {
    TailedFrame(l, s, i, e);
    if l.items == [] {
      MatchesAt(s, e, RenderTail(l.bar, l.lead, l.tail, l.close), 0);
      if l.bar != [] { FillerHead(l.bar); }
    } else {
      NotClosedAtOnce(l.items, s, i + 1);
    }
  }

  lemma {:induction false} TrailingItemsRead(
      items: seq<Item>, first: bool, s: Chars, simple: SimpleParser, i: nat, acc: seq<Term>, acc': seq<Term>, end: nat)
    requires Exact(s, simple) && FilledItems(items) && TrailingItems(items)
    requires Matches(s, i, RenderItems(items, first)) && end == i + |RenderItems(items, first)|
    requires Delimiter(CharAt(s, end)) && acc' == acc + DenotesAll(items)
    ensures ItemsAt(s, simple, i, RBRACKET, acc) == Ok(acc', i + ItemsReach(items, first))
    decreases items, 2
  {
    if |items| == 1 {
      LastItemReads(items, first, s, simple, i, acc, acc', end);
    } else {
      MoreItemsRead(items, first, s, simple, i, acc, acc', end);
    }
  }

  lemma {:induction false} LastItemReads(
      items: seq<Item>, first: bool, s: Chars, simple: SimpleParser, i: nat, acc: seq<Term>, acc': seq<Term>, end: nat)
    requires Exact(s, simple) && FilledItems(items) && TrailingItems(items) && |items| == 1
    requires Matches(s, i, RenderItems(items, first)) && end == i + |RenderItems(items, first)|
    requires Delimiter(CharAt(s, end)) && acc' == acc + DenotesAll(items)
    ensures ItemsAt(s, simple, i, RBRACKET, acc) == Ok(acc', i + ItemsReach(items, first))
    decreases items, 1
  {
    var x := items[0];
    var mid := acc + [Denotes(x.node)];
    var k := i + |x.before| + (if first then 0 else 1);
    var k' := k + |Render(x.node)|;
    FirstDenoted(items, acc, mid, acc');
    HeadItem(items, first, s, i, end, k, k');
    ReachOfOne(items, first, i, k, k');
    assert DenotesAll(items[1..]) == [] && acc' == mid;
    TrailingItemReads(x, first, s, simple, i, k, k', acc, mid);
  }

  lemma {:induction false} MoreItemsRead(
      items: seq<Item>, first: bool, s: Chars, simple: SimpleParser, i: nat, acc: seq<Term>, acc': seq<Term>, end: nat)
    requires Exact(s, simple) && FilledItems(items) && TrailingItems(items) && |items| > 1
    requires Matches(s, i, RenderItems(items, first)) && end == i + |RenderItems(items, first)|
    requires Delimiter(CharAt(s, end)) && acc' == acc + DenotesAll(items)
    ensures ItemsAt(s, simple, i, RBRACKET, acc) == Ok(acc', i + ItemsReach(items, first))
    decreases items, 1
  {
    var x, tail := items[0], items[1..];
    var mid := acc + [Denotes(x.node)];
    var k := i + |x.before| + (if first then 0 else 1);
    var k' := k + |Render(x.node)|;
    FirstOfMore(items);
    FirstDenoted(items, acc, mid, acc');
    HeadItem(items, first, s, i, end, k, k');
    ReachOfMore(items, first, i, k, k');
    TrailingItemsRead(tail, false, s, simple, k' + |x.after|, mid, acc', end);
    FirstPasses(x, first, s, simple, i, k, k', acc, mid, Ok(acc', i + ItemsReach(items, first)));
  }

  lemma FirstOfMore(items: seq<Item>)
    requires |items| > 1 && FilledItems(items) && TrailingItems(items)
    ensures FilledItem(items[0]) && FilledItems(items[1..]) && Laid(items[0].node) && TrailingItems(items[1..])
  {
  }

  lemma FirstPasses(
      x: Item, first: bool, s: Chars, simple: SimpleParser, i: nat, k: nat, k': nat, acc: seq<Term>, mid: seq<Term>,
      r: Parsed<seq<Term>>)
    requires Exact(s, simple) && FilledItem(x) && Laid(x.node) && ItemHere(x, first, s, i, k, k')
    requires mid == acc + [Denotes(x.node)] && ItemsAt(s, simple, k' + |x.after|, RBRACKET, mid) == r
    ensures ItemsAt(s, simple, i, RBRACKET, acc) == r
  {
    ItemPassed(x, first, false, s, simple, i, k, k', acc, mid);
  }

  lemma {:induction false} TrailingItemReads(
      x: Item, first: bool, s: Chars, simple: SimpleParser, i: nat, k: nat, k': nat, acc: seq<Term>, acc': seq<Term>)
    requires Exact(s, simple) && FilledItem(x) && TrailingItem(x)
    requires k == i + |x.before| + (if first then 0 else 1) && k' == k + |Render(x.node)|
    requires first || (i < |s| && s[i] == COMMA)
    requires Matches(s, k - |x.before|, x.before) && Matches(s, k, Render(x.node))
    requires acc' == acc + [Denotes(x.node)]
    ensures ItemsAt(s, simple, i, RBRACKET, acc) == Ok(acc', k')
    decreases x, 1
  {
    TrailingReads(x.node, s, simple, k);
    TrailingOpens(x.node);
    MatchesAt(s, k, Render(x.node), 0);
    TrailingTaken(x.node, false, s, simple, k, acc');
    LastTaken(x.before, first, s, simple, i, k, k + Reach(x.node), acc, acc', Denotes(x.node), Ok(acc', k'));
  }

  lemma TokenTaken(
      before: Chars, first: bool, s: Chars, simple: SimpleParser, i: nat, k: nat, k': nat, acc: seq<Term>, t: Term)
    requires Advances(s, simple) && Filler(before, false)
    requires k == i + |before| + (if first then 0 else 1)
    requires first || (i < |s| && s[i] == COMMA)
    requires Matches(s, k - |before|, before)
    requires k < |s| && Starts(s[k]) && TermAt(s, simple, k) == Ok(t, k')
    ensures ItemsAt(s, simple, i, RBRACKET, acc) == ItemsAt(s, simple, k', RBRACKET, acc + [t])
  {
    var i1 := k - |before|;
    if !first { AfterComma(s, simple, i, false, acc); }
    SkipFiller(s, i1, before, false);
    SameToken(s, simple, i1, k, RBRACKET, acc);
    NextItem(s, simple, k, false, acc, t, k');
  }

  lemma LastTaken(
      before: Chars, first: bool, s: Chars, simple: SimpleParser, i: nat, k: nat, k': nat,
      acc: seq<Term>, acc': seq<Term>, t: Term, r: Parsed<seq<Term>>)
    requires Advances(s, simple) && Filler(before, false)
    requires k == i + |before| + (if first then 0 else 1)
    requires first || (i < |s| && s[i] == COMMA)
    requires Matches(s, k - |before|, before)
    requires k < |s| && Starts(s[k]) && TermAt(s, simple, k) == Ok(t, k')
    requires acc' == acc + [t] && ItemsAt(s, simple, k', RBRACKET, acc') == r
    ensures ItemsAt(s, simple, i, RBRACKET, acc) == r
  {
    TokenTaken(before, first, s, simple, i, k, k', acc, t);
  }

  // ----- the theorems -----

  lemma LedLayout(l: Layout, lead: Chars, s: Chars, simple: SimpleParser)
    requires Advances(s, simple) && Filler(lead, false) && LedBy(s, lead + Render(l))
    ensures Matches(s, |lead|, Render(l)) && TermAt(s, simple, 0) == TermAt(s, simple, |lead|)
  {
    MatchesPrefix(s, lead + Render(l));
    MatchesParts(s, 0, lead, Render(l));
    LeadSkipped(lead, s, simple);
  }

  lemma LayoutExact(l: Layout, s: Chars, simple: SimpleParser, i: nat)
    requires Exact(s, simple) && Filled(l) && Matches(s, i, Render(l)) && Delimiter(CharAt(s, i + |Render(l)|))
    ensures TermAt(s, simple, i).Ok? && TermAt(s, simple, i).value == Denotes(l) ==> ReadAs(l, s, simple, i)
    ensures Trailing(l) ==> TermAt(s, simple, i) == Ok(Denotes(l), i + Reach(l))
  {
    if Trailing(l) {
      TrailingReads(l, s, simple, i);
    }
    if TermAt(s, simple, i).Ok? && TermAt(s, simple, i).value == Denotes(l) {
      RenderExact(l, s, simple, i);
    }
  }

  lemma LeadSkipped(lead: Chars, s: Chars, simple: SimpleParser)
    requires Advances(s, simple) && Filler(lead, false) && Matches(s, 0, lead)
    ensures TermAt(s, simple, 0) == TermAt(s, simple, |lead|)
  {
    SkipFiller(s, 0, lead, false);
    SameToken(s, simple, 0, |lead|, RBRACE, []);
  }

  /**
   * A printable layout of a term is read back, to its end, iff each of its leaves is
   * readable and no list in it has a tail. The value alone comes out right iff there is, at
   * the most, a tail at the very end; the cursor is then left short by that much.
   */
  lemma LayoutReadsIff(l: Layout, lead: Chars, s: Chars)
    requires Filled(l) && Filler(lead, false) && LedBy(s, lead + Render(l))
    ensures ParseTerm(s, 0) == Ok(Denotes(l), |lead| + |Render(l)|) <==> Laid(l)
    ensures ParseTerm(s, 0).Ok? && ParseTerm(s, 0).value == Denotes(l) <==> Laid(l) || Trailing(l)
    ensures Trailing(l) ==> ParseTerm(s, 0) == Ok(Denotes(l), |lead| + Reach(l)) && Reach(l) < |Render(l)|
  {
    SimpleIsExact(s);
    LedLayout(l, lead, s, Simple(s));
    LayoutExact(l, s, Simple(s), |lead|);
    if Trailing(l) {
      LeftOver(l, s, |lead|);
    }
    if Laid(l) {
      ParseUndoesLayout(l, lead, s);
    }
  }

  /** A list with a tail has the tail as its last element, and its bracket is left over. */
  lemma TailedReads(l: Layout, lead: Chars, s: Chars)
    requires l.Tailed? && Filled(l) && LaidItems(l.items) && LeafReadable(l.tail)
    requires Filler(lead, false) && LedBy(s, lead + Render(l))
    ensures ParseTerm(s, 0) == Ok(List(DenotesAll(l.items) + [l.tail]), |lead| + |Render(l)| - 1)
    ensures s[|lead| + |Render(l)| - 1] == RBRACKET
  {
    LayoutReadsIff(l, lead, s);
    LedBracket(l, lead, s);
  }

  lemma LedBracket(l: Layout, lead: Chars, s: Chars)
    requires l.Tailed? && Filled(l) && lead + Render(l) <= s
    ensures 0 < |lead| + |Render(l)| <= |s| && s[|lead| + |Render(l)| - 1] == RBRACKET
  {
    MatchesPrefix(s, lead + Render(l));
    MatchesParts(s, 0, lead, Render(l));
    TailedLeftOver(l, s, |lead|);
  }

  /** For example `[H|T]`. */
  lemma HeadAndTail()
    ensures ParseTerm([LBRACKET, 72, PIPE, 84, RBRACKET], 0)
         == Ok(List([Var([72], UndefinedT), Var([84], UndefinedT)]), 4)
  {
    var s: Chars := [LBRACKET, 72, PIPE, 84, RBRACKET];
    var h, t := Var([72], UndefinedT), Var([84], UndefinedT);
    var items := [Item([], Leaf(h), [])];
    var l := Tailed(items, [], [], t, []);
    CodePointsAtMostBytes([72]);
    CodePointsAtMostBytes([84]);
    OneItem(items[0]);
    assert [h] + [t] == [h, t];
    assert RenderTail([], [], t, []) == [PIPE, 84, RBRACKET];
    assert [] + Render(l) == s;
    TailedReads(l, [], s);
  }

  lemma OneItem(x: Item)
    requires LaidItem(x) && FilledItem(x)
    ensures LaidItems([x]) && FilledItems([x]) && DenotesAll([x]) == [Denotes(x.node)]
    ensures RenderItems([x], true) == x.before + Render(x.node) + x.after
  {
    assert [x][1..] == [];
    assert FilledItems([]) && LaidItems([]) && DenotesAll([]) == [] && RenderItems([], false) == [];
  }

  // ----- the same in terms of leaves and tails -----

  predicate LeavesReadable(l: Layout)
    decreases l, 0
  {
    match l
    case Leaf(t) => LeafReadable(t)
    case Nest(_, items, _) => AllLeavesReadable(items)
    case Tailed(items, _, _, tail, _) => AllLeavesReadable(items) && LeafReadable(tail)
  }

  predicate AllLeavesReadable(items: seq<Item>)
    decreases items, 1
  {
    items == [] || (ItemLeavesReadable(items[0]) && AllLeavesReadable(items[1..]))
  }

  predicate ItemLeavesReadable(x: Item)
    decreases x, 0
  {
    LeavesReadable(x.node)
  }

  predicate HasTail(l: Layout)
    decreases l, 0
  {
    match l
    case Leaf(_) => false
    case Nest(_, items, _) => SomeTail(items)
    case Tailed(_, _, _, _, _) => true
  }

  predicate SomeTail(items: seq<Item>)
    decreases items, 1
  {
    items != [] && (ItemHasTail(items[0]) || SomeTail(items[1..]))
  }

  predicate ItemHasTail(x: Item)
    decreases x, 0
  {
    HasTail(x.node)
  }

  lemma {:induction false} LaidIff(l: Layout)
    requires Filled(l)
    ensures Laid(l) <==> LeavesReadable(l) && !HasTail(l)
    decreases l, 0
  {
    if l.Nest? { AllLaidIff(l.items); }
  }

  lemma {:induction false} AllLaidIff(items: seq<Item>)
    requires FilledItems(items)
    ensures LaidItems(items) <==> AllLeavesReadable(items) && !SomeTail(items)
    decreases items, 1
  {
    if items != [] {
      LaidIff(items[0].node);
      AllLaidIff(items[1..]);
    }
  }

  /** Readable leaves in any layout: the text is read to its end iff no list in it has a tail. */
  lemma ReadToEndIffNoTail(l: Layout, lead: Chars, s: Chars)
    requires Filled(l) && LeavesReadable(l) && Filler(lead, false) && LedBy(s, lead + Render(l))
    ensures ParseTerm(s, 0) == Ok(Denotes(l), |lead| + |Render(l)|) <==> !HasTail(l)
  {
    LayoutReadsIff(l, lead, s);
    LaidIff(l);
  }

  lemma {:induction false} PlainIsFilled(t: Term)
    requires Printable(t)
    ensures Filled(Plain(t))
    decreases t, 0
  {
    if t.Tuple? || t.List? { PlainItemsAreFilled(t.elems); }
  }

  lemma {:induction false} PlainItemsAreFilled(ts: seq<Term>)
    requires forall t | t in ts :: Printable(t)
    ensures FilledItems(PlainItems(ts))
    decreases ts, 1
  {
    if ts != [] {
      PlainIsFilled(ts[0]);
      PlainItemsAreFilled(ts[1..]);
      assert PlainItems(ts)[1..] == PlainItems(ts[1..]);
    }
  }

  /** The printed form of any printable term is read back if and only if it is readable. */
  lemma TermReadsIff(t: Term, s: Chars)
    requires Printable(t) && LedBy(s, Print(t))
    ensures ParseTerm(s, 0) == Ok(ReadBack(t), |Print(t)|) <==> Readable(t)
    ensures ParseTerm(s, 0).Ok? && ParseTerm(s, 0).value == ReadBack(t) <==> Readable(t)
  {
    PlainIsFilled(t);
    PlainIsPrint(t);
    PlainDenotes(t);
    PlainIsNotTrailing(t);
    assert [] + Print(t) == Print(t);
    LayoutReadsIff(Plain(t), [], s);
  }

  lemma {:induction false} PlainIsNotTrailing(t: Term)
    ensures !Trailing(Plain(t))
    decreases t, 0
  {
    if t.Tuple? || t.List? { PlainItemsAreNotTrailing(t.elems); }
  }

  lemma {:induction false} PlainItemsAreNotTrailing(ts: seq<Term>)
    ensures !TrailingItems(PlainItems(ts))
    decreases ts, 1
  {
    if ts != [] {
      PlainIsNotTrailing(ts[0]);
      PlainItemsAreNotTrailing(ts[1..]);
      assert PlainItems(ts)[1..] == PlainItems(ts[1..]);
    }
  }
}
