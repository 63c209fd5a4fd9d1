/**
 * Parsing undoes printing: for every readable term, and for every way of laying it out
 * with blanks and comments between its tokens.
 */
module TextRoundTrip {
  import opened Slices
  import opened Terms
  import opened Text
  import opened TextTokens

  // ----- layouts -----

  /**
   * A term with the blanks and comments that surround its tokens. A tailed list is one
   * written `[items | tail]`; `bar`, `lead` and `close` surround its bar and its tail.
   */
  datatype Layout =
    | Leaf(term: Term)
    | Nest(isTuple: bool, items: seq<Item>, close: Chars)
    | Tailed(items: seq<Item>, bar: Chars, lead: Chars, tail: Term, close: Chars)
  datatype Item = Item(before: Chars, node: Layout, after: Chars)

  /** Blanks and complete `%` comments; `inside` tells whether a comment is open. */
  predicate Filler(f: Chars, inside: bool) {
    if f == [] then !inside
    else if f[0] == 0 then false
    else if inside then Filler(f[1..], f[0] != 10)
    else if f[0] in {32, 9, 10, 13} then Filler(f[1..], false)
    else f[0] == 37 && Filler(f[1..], true)
  }

  /** Every leaf is readable, and no list has a tail. */
  predicate Laid(l: Layout)
    decreases l, 0
  {
    match l
    case Leaf(t) => LeafReadable(t)
    case Nest(_, items, close) => Filler(close, false) && LaidItems(items)
    case Tailed(_, _, _, _, _) => false
  }

  predicate LaidItems(items: seq<Item>)
    decreases items, 1
  {
    items == [] || (LaidItem(items[0]) && LaidItems(items[1..]))
  }

  predicate LaidItem(x: Item)
    decreases x, 0
  {
    Filler(x.before, false) && Filler(x.after, false) && Laid(x.node)
  }

  function Opener(isTuple: bool): Byte {
    if isTuple then 123 else 91
  }

  function Closer(isTuple: bool): Byte {
    if isTuple then 125 else 93
  }

  function Render(l: Layout): Chars
    decreases l, 0
  {
    match l
    case Leaf(t) => Print(t)
    case Nest(b, items, close) => [Opener(b)] + RenderItems(items, true) + close + [Closer(b)]
    case Tailed(items, bar, lead, tail, close) =>
      [91] + RenderItems(items, true) + RenderTail(bar, lead, tail, close)
  }

  /** From the filler before the bar to the closing bracket. */
  function RenderTail(bar: Chars, lead: Chars, tail: Term, close: Chars): Chars {
    bar + [124] + (lead + Print(tail) + close + [93])
  }

  function RenderItems(items: seq<Item>, first: bool): Chars
    decreases items, 1
  {
    if items == [] then []
    else
      (if first then [] else [44])
      + items[0].before + Render(items[0].node) + items[0].after
      + RenderItems(items[1..], false)
  }

  /** The term a layout stands for, as the parser reads it. */
  function Denotes(l: Layout): Term
    decreases l, 0
  {
    match l
    case Leaf(t) => ReadBack(t)
    case Nest(true, items, _) => Tuple(DenotesAll(items))
    case Nest(false, items, _) => List(DenotesAll(items))
    case Tailed(items, _, _, tail, _) => List(DenotesAll(items) + [tail])
  }

  function DenotesAll(items: seq<Item>): seq<Term>
    decreases items, 1
  {
    if items == [] then [] else [Denotes(items[0].node)] + DenotesAll(items[1..])
  }

  lemma {:induction false} SkipFiller(s: Chars, i: nat, f: Chars, inside: bool)
    requires Matches(s, i, f) && Filler(f, inside)
    ensures Skip(s, i, inside) == Skip(s, i + |f|, false)
    decreases |f|
  {
    if f != [] {
      assert s[i] == f[0] && forall k | 0 <= k < |f[1..]| :: f[1..][k] == f[k + 1];
      SkipFiller(s, i + 1, f[1..], if inside then f[0] != NEWLINE else f[0] == PERCENT);
    }
  }

  // ----- nested terms -----

  /** What a rendered term can start with: never a blank, a comment or punctuation. */
  predicate Starts(c: Byte) {
    IsAlnum(c) || c in {UNDERSCORE, MINUS, DQUOTE, QUOTE, LESS, LBRACE, LBRACKET}
  }

  lemma TokenStarts(t: Term)
    requires LeafReadable(t)
    ensures Print(t) != [] && Starts(Print(t)[0]) && Print(t)[0] !in {LBRACE, LBRACKET}
  {
    match t
    case Long(v) => LongIsDigits(v);
    case Atom(n) => BareHasNoBlank(n);
    case _ =>
  }

  lemma RenderStarts(l: Layout)
    requires Laid(l)
    ensures Render(l) != [] && Starts(Render(l)[0])
  {
    if l.Leaf? { TokenStarts(l.term); }
  }

  lemma FillerHead(f: Chars)
    requires Filler(f, false) && f != []
    ensures Delimiter(f[0]) && f[0] != RBRACKET
  {
  }

  /** A readable token, printed at position `i` and followed by a delimiter. */
  ghost predicate TokenHere(t: Term, s: Chars, i: nat) {
    LeafReadable(t) && Matches(s, i, Print(t)) && Delimiter(CharAt(s, i + |Print(t)|))
  }

  /** All that nesting asks of the parser of simple terms: it reads printed tokens back. */
  ghost predicate ReadsTokens(s: Chars, simple: SimpleParser) {
    forall t, i: nat :: TokenHere(t, s, i) ==> simple(i) == Ok(ReadBack(t), i + |Print(t)|)
  }

  lemma TokenReads(t: Term, s: Chars, simple: SimpleParser, i: nat)
    requires Advances(s, simple) && ReadsTokens(s, simple) && TokenHere(t, s, i)
    ensures TermAt(s, simple, i) == Ok(ReadBack(t), i + |Print(t)|)
  {
    TokenStarts(t);
    MatchesAt(s, i, Print(t), 0);
    assert Skip(s, i, false) == i;
  }

  /** Where parsing starts matters only through the first token found there. */
  lemma SameToken(s: Chars, simple: SimpleParser, i: nat, j: nat, close: Byte, acc: seq<Term>)
    requires i <= |s| && j <= |s| && Skip(s, i, false) == Skip(s, j, false) && close != 0
    requires Advances(s, simple)
    ensures TermAt(s, simple, i) == TermAt(s, simple, j)
    ensures ItemsAt(s, simple, i, close, acc) == ItemsAt(s, simple, j, close, acc)
  {
  }

  lemma NextItem(s: Chars, simple: SimpleParser, k: nat, b: bool, acc: seq<Term>, t: Term, k': nat)
    requires Advances(s, simple)
    requires k < |s| && Starts(s[k]) && TermAt(s, simple, k) == Ok(t, k')
    ensures ItemsAt(s, simple, k, Closer(b), acc) == ItemsAt(s, simple, k', Closer(b), acc + [t])
  {
    assert Skip(s, k, false) == k;
  }

  lemma AfterComma(s: Chars, simple: SimpleParser, i: nat, b: bool, acc: seq<Term>)
    requires Advances(s, simple)
    requires i < |s| && s[i] == COMMA
    ensures ItemsAt(s, simple, i, Closer(b), acc) == ItemsAt(s, simple, i + 1, Closer(b), acc)
  {
    assert Skip(s, i, false) == i;
  }

  /** A rendered item sequence is followed by a delimiter wherever one item ends. */
  lemma ItemsHead(items: seq<Item>, s: Chars, i: nat)
    requires Matches(s, i, RenderItems(items, false))
    requires Delimiter(CharAt(s, i + |RenderItems(items, false)|))
    ensures Delimiter(CharAt(s, i))
  {
    if items != [] { MatchesAt(s, i, RenderItems(items, false), 0); }
  }

  /** One item, from the comma before it to the filler after it. */
  lemma ItemParts(x: Item, w: Chars, rest: Chars, first: bool, s: Chars, i: nat, end: nat)
    requires var all := (if first then [] else [COMMA]) + x.before + w + x.after + rest;
             Matches(s, i, all) && end == i + |all|
    ensures !first ==> i < |s| && s[i] == COMMA
    ensures var i1 := if first then i else i + 1;
            var k := i1 + |x.before|;
            var k' := k + |w|;
            && Matches(s, i1, x.before) && Matches(s, k, w)
            && Matches(s, k', x.after) && Matches(s, k' + |x.after|, rest)
            && end == k' + |x.after| + |rest|
  {
    var comma := if first then [] else [COMMA];
    MatchesParts(s, i, comma + x.before + w + x.after, rest);
    FourParts(s, i, comma, x.before, w, x.after);
    if !first { MatchesAt(s, i, comma, 0); }
  }

  lemma {:induction false} RenderReads(l: Layout, s: Chars, simple: SimpleParser, i: nat)
    requires Advances(s, simple) && ReadsTokens(s, simple)
    requires Laid(l)
    requires Matches(s, i, Render(l)) && Delimiter(CharAt(s, i + |Render(l)|))
    ensures TermAt(s, simple, i) == Ok(Denotes(l), i + |Render(l)|)
    decreases l, 0
  {
    match l
    case Leaf(t) => TokenReads(t, s, simple, i);
    case Nest(b, items, close) =>
      var body := RenderItems(items, true);
      var e := i + 1 + |body|;
      NestFrame(b, body, close, s, i, e);
      assert [] + DenotesAll(items) == DenotesAll(items);
      ItemsRead(items, true, b, s, simple, i + 1, [], DenotesAll(items), e, e + |close|);
      if !b && s[i + 1] == RBRACKET { ClosedAtOnce(items, close, s, i + 1); }
      NestReads(b, s, simple, i, DenotesAll(items), e + |close| + 1);
  }

  lemma NestParts(b: bool, body: Chars, close: Chars, s: Chars, i: nat, e: nat)
    requires Matches(s, i, [Opener(b)]) && Matches(s, i + 1, body)
    requires e == i + 1 + |body| && Matches(s, e, close) && Matches(s, e + |close|, [Closer(b)])
    requires Filler(close, false)
    ensures e + |close| < |s| && s[i] == Opener(b) && s[e + |close|] == Closer(b)
    ensures Delimiter(s[e]) && Skip(s, e, false) == e + |close|
  {
    MatchesAt(s, i, [Opener(b)], 0);
    MatchesAt(s, e + |close|, [Closer(b)], 0);
    SkipFiller(s, e, close, false);
    if close != [] { MatchesAt(s, e, close, 0); FillerHead(close); }
  }

  lemma NestFrame(b: bool, body: Chars, close: Chars, s: Chars, i: nat, e: nat)
    requires Matches(s, i, [Opener(b)] + body + close + [Closer(b)])
    requires e == i + 1 + |body| && Filler(close, false)
    ensures e + |close| < |s| && s[i] == Opener(b) && s[e + |close|] == Closer(b)
    ensures Matches(s, i + 1, body) && Matches(s, e, close)
    ensures Delimiter(s[e]) && Skip(s, e, false) == e + |close|
  {
    FourParts(s, i, [Opener(b)], body, close, [Closer(b)]);
    NestParts(b, body, close, s, i, e);
  }

  /** The short cut for `[]` agrees with parsing an empty item list. */
  lemma ClosedAtOnce(items: seq<Item>, close: Chars, s: Chars, i: nat)
    requires LaidItems(items) && Filler(close, false)
    requires Matches(s, i, RenderItems(items, true)) && Matches(s, i + |RenderItems(items, true)|, close)
    requires i < |s| && s[i] == RBRACKET
    ensures items == [] && close == []
  {
    if items != [] {
      var x := items[0];
      var w := RenderItems(items, true);
      RenderStarts(x.node);
      assert w[0] == (x.before + Render(x.node))[0];
      MatchesAt(s, i, w, 0);
      if x.before != [] { FillerHead(x.before); }
      assert false;
    } else if close != [] {
      MatchesAt(s, i, close, 0);
      FillerHead(close);
      assert false;
    }
  }

  lemma NestReads(b: bool, s: Chars, simple: SimpleParser, i: nat, v: seq<Term>, pos: nat)
    requires Advances(s, simple)
    requires i + 1 < |s| && s[i] == Opener(b)
    requires ItemsAt(s, simple, i + 1, Closer(b), []) == Ok(v, pos)
    requires !b && s[i + 1] == RBRACKET ==> v == [] && pos == i + 2
    ensures TermAt(s, simple, i) == Ok(if b then Tuple(v) else List(v), pos)
  {
    assert Skip(s, i, false) == i;
  }

  /** The parser goes from before one item to behind it, having collected its term. */
  lemma ItemStep(
      x: Item, first: bool, b: bool, s: Chars, simple: SimpleParser, i: nat, k: nat, k': nat, acc: seq<Term>, t: Term)
    requires Filler(x.before, false) && Filler(x.after, false)
    requires k == i + |x.before| + (if first then 0 else 1)
    requires first || (i < |s| && s[i] == COMMA)
    requires Matches(s, k - |x.before|, x.before) && Matches(s, k', x.after)
    requires Advances(s, simple)
    requires k < |s| && Starts(s[k]) && TermAt(s, simple, k) == Ok(t, k')
    ensures ItemsAt(s, simple, i, Closer(b), acc) == ItemsAt(s, simple, k' + |x.after|, Closer(b), acc + [t])
  {
    var i1 := k - |x.before|;
    if !first { AfterComma(s, simple, i, b, acc); }
    SkipFiller(s, i1, x.before, false);
    SameToken(s, simple, i1, k, Closer(b), acc);
    NextItem(s, simple, k, b, acc, t, k');
    SkipFiller(s, k', x.after, false);
    SameToken(s, simple, k', k' + |x.after|, Closer(b), acc + [t]);
  }

  lemma DelimiterAfter(x: Item, items: seq<Item>, s: Chars, k': nat)
    requires Filler(x.after, false)
    requires Matches(s, k', x.after) && Matches(s, k' + |x.after|, RenderItems(items, false))
    requires Delimiter(CharAt(s, k' + |x.after| + |RenderItems(items, false)|))
    ensures Delimiter(CharAt(s, k'))
  {
    if x.after == [] {
      ItemsHead(items, s, k');
    } else {
      FillerHead(x.after);
      MatchesAt(s, k', x.after, 0);
    }
  }

  lemma NoMoreItems(b: bool, s: Chars, simple: SimpleParser, i: nat, acc: seq<Term>, e: nat)
    requires Advances(s, simple)
    requires i <= |s| && Skip(s, i, false) == e < |s| && s[e] == Closer(b)
    ensures ItemsAt(s, simple, i, Closer(b), acc) == Ok(acc, e + 1)
  {
  }

  /** What surrounds the first of several items. */
  lemma HeadItem(items: seq<Item>, first: bool, s: Chars, i: nat, end: nat, k: nat, k': nat)
    requires items != [] && Filler(items[0].after, false)
    requires Matches(s, i, RenderItems(items, first)) && end == i + |RenderItems(items, first)|
    requires Delimiter(CharAt(s, end))
    requires k == i + |items[0].before| + (if first then 0 else 1) && k' == k + |Render(items[0].node)|
    ensures first || (i < |s| && s[i] == COMMA)
    ensures Matches(s, k - |items[0].before|, items[0].before) && Matches(s, k', items[0].after)
    ensures Matches(s, k, Render(items[0].node)) && Delimiter(CharAt(s, k'))
    ensures var rest := RenderItems(items[1..], false);
            Matches(s, k' + |items[0].after|, rest) && end == k' + |items[0].after| + |rest|
  {
    var x := items[0];
    ItemParts(x, Render(x.node), RenderItems(items[1..], false), first, s, i, end);
    DelimiterAfter(x, items[1..], s, k');
  }

  lemma {:induction false} ItemReads(
      x: Item, first: bool, b: bool, s: Chars, simple: SimpleParser, i: nat, k: nat, k': nat, acc: seq<Term>)
    requires Advances(s, simple) && ReadsTokens(s, simple)
    requires LaidItem(x)
    requires k == i + |x.before| + (if first then 0 else 1) && k' == k + |Render(x.node)|
    requires first || (i < |s| && s[i] == COMMA)
    requires Matches(s, k - |x.before|, x.before) && Matches(s, k', x.after)
    requires Matches(s, k, Render(x.node)) && Delimiter(CharAt(s, k'))
    ensures ItemsAt(s, simple, i, Closer(b), acc)
         == ItemsAt(s, simple, k' + |x.after|, Closer(b), acc + [Denotes(x.node)])
    decreases x, 0
  {
    RenderReads(x.node, s, simple, k);
    RenderStarts(x.node);
    MatchesAt(s, k, Render(x.node), 0);
    ItemStep(x, first, b, s, simple, i, k, k', acc, Denotes(x.node));
  }

  lemma {:induction false} ItemsRead(
      items: seq<Item>, first: bool, b: bool, s: Chars, simple: SimpleParser, i: nat, acc: seq<Term>, v: seq<Term>,
      end: nat, e: nat)
    requires Advances(s, simple) && ReadsTokens(s, simple)
    requires LaidItems(items)
    requires Matches(s, i, RenderItems(items, first)) && end == i + |RenderItems(items, first)|
    requires Delimiter(CharAt(s, end)) && Skip(s, end, false) == e
    requires e < |s| && s[e] == Closer(b)
    requires v == acc + DenotesAll(items)
    ensures ItemsAt(s, simple, i, Closer(b), acc) == Ok(v, e + 1)
    decreases items, 1
  {
    if items == [] {
      assert v == acc;
      NoMoreItems(b, s, simple, i, acc, e);
    } else {
      var x, tail := items[0], items[1..];
      var t := Denotes(x.node);
      OneMore(acc, DenotesAll(items));
      var k := i + |x.before| + (if first then 0 else 1);
      var k' := k + |Render(x.node)|;
      HeadItem(items, first, s, i, end, k, k');
      ItemReads(x, first, b, s, simple, i, k, k', acc);
      ItemsRead(tail, false, b, s, simple, k' + |x.after|, acc + [t], v, end, e);
    }
  }

  // ----- the theorems -----

  /** The text starts with `w`, and what follows `w` is a delimiter or nothing. */
  predicate LedBy(s: Chars, w: Chars) {
    w <= s && Delimiter(CharAt(s, |w|))
  }

  /**
   * However a readable term is laid out, and whatever delimiter-led text follows, the
   * parser returns the term and stops right after it.
   */
  lemma ParseUndoesLayout(l: Layout, lead: Chars, s: Chars)
    requires Laid(l) && Filler(lead, false) && LedBy(s, lead + Render(l))
    ensures ParseTerm(s, 0) == Ok(Denotes(l), |lead| + |Render(l)|)
  {
    SimpleReadsTokens(s);
    LedLayoutReads(l, lead, s, Simple(s));
  }

  lemma SimpleReadsTokens(s: Chars)
    ensures Advances(s, Simple(s)) && ReadsTokens(s, Simple(s))
  {
    forall t, i: nat | TokenHere(t, s, i) ensures Simple(s)(i) == Ok(ReadBack(t), i + |Print(t)|) {
      LeafReads(s, i, t);
    }
  }

  lemma LayoutReads(l: Layout, lead: Chars, s: Chars, simple: SimpleParser)
    requires Advances(s, simple) && ReadsTokens(s, simple)
    requires Laid(l) && Filler(lead, false) && Matches(s, 0, lead) && Matches(s, |lead|, Render(l))
    requires Delimiter(CharAt(s, |lead| + |Render(l)|))
    ensures TermAt(s, simple, 0) == Ok(Denotes(l), |lead| + |Render(l)|)
  {
    RenderReads(l, s, simple, |lead|);
    SkipFiller(s, 0, lead, false);
    SameToken(s, simple, 0, |lead|, RBRACE, []);
  }

  lemma LedLayoutReads(l: Layout, lead: Chars, s: Chars, simple: SimpleParser)
    requires Advances(s, simple) && ReadsTokens(s, simple)
    requires Laid(l) && Filler(lead, false) && LedBy(s, lead + Render(l))
    ensures TermAt(s, simple, 0) == Ok(Denotes(l), |lead| + |Render(l)|)
  {
    MatchesPrefix(s, lead + Render(l));
    MatchesParts(s, 0, lead, Render(l));
    LayoutReads(l, lead, s, simple);
  }

  /** The layout that `dump` produces: no filler at all. */
  function Plain(t: Term): Layout
    decreases t, 0
  {
    match t
    case Tuple(es) => Nest(true, PlainItems(es), [])
    case List(es) => Nest(false, PlainItems(es), [])
    case _ => Leaf(t)
  }

  function PlainItems(ts: seq<Term>): seq<Item>
    decreases ts, 1
  {
    if ts == [] then [] else [Item([], Plain(ts[0]), [])] + PlainItems(ts[1..])
  }

  lemma {:induction false} PlainIsPrint(t: Term)
    ensures Laid(Plain(t)) <==> Readable(t)
    ensures Render(Plain(t)) == Print(t)
    decreases t, 0
  {
    if t.Tuple? || t.List? {
      PlainItemsPrint(t.elems, true);
    }
  }

  lemma UnfilledItem(x: Item, xs: seq<Item>, first: bool)
    requires x.before == [] && x.after == []
    ensures RenderItems([x] + xs, first) ==
            (if first then [] else [COMMA]) + Render(x.node) + RenderItems(xs, false)
  {
    assert ([x] + xs)[1..] == xs;
  }

  lemma {:induction false} PlainItemsPrint(ts: seq<Term>, first: bool)
    ensures LaidItems(PlainItems(ts)) <==> forall t | t in ts :: Readable(t)
    ensures RenderItems(PlainItems(ts), first) == PrintAll(ts, first)
    decreases ts, 1
  {
    if ts != [] {
      PlainIsPrint(ts[0]);
      PlainItemsPrint(ts[1..], false);
      var x, xs := Item([], Plain(ts[0]), []), PlainItems(ts[1..]);
      assert PlainItems(ts) == [x] + xs && ([x] + xs)[1..] == xs;
      UnfilledItem(x, xs, first);
    }
  }

  lemma {:induction false} PlainDenotes(t: Term)
    ensures Denotes(Plain(t)) == ReadBack(t)
    decreases t, 0
  {
    if t.Tuple? || t.List? { PlainItemsDenote(t.elems); }
  }

  lemma {:induction false} PlainItemsDenote(ts: seq<Term>)
    ensures DenotesAll(PlainItems(ts)) == ReadBackAll(ts)
    decreases ts, 1
  {
    if ts != [] {
      PlainDenotes(ts[0]);
      PlainItemsDenote(ts[1..]);
      assert PlainItems(ts)[1..] == PlainItems(ts[1..]);
    }
  }

  /** Parsing the printed form of a readable term gives the term back. */
  lemma ParseUndoesPrint(t: Term, s: Chars)
    requires Readable(t) && LedBy(s, Print(t))
    ensures ParseTerm(s, 0) == Ok(ReadBack(t), |Print(t)|)
  {
    PlainIsPrint(t);
    PlainDenotes(t);
    assert [] + Print(t) == Print(t);
    ParseUndoesLayout(Plain(t), [], s);
  }

  // ----- where the round trip ends: exact conditions on leaves -----

  lemma SimpleStart(s: Chars)
    requires s != [] && Starts(s[0]) && s[0] !in {LBRACE, LBRACKET}
    ensures ParseTerm(s, 0) == ParseSimple(s, 0)
  {
    assert Skip(s, 0, false) == 0;
  }

  /** No text between quotes holds a NUL. */
  lemma QuotedHasNoNul(s: Chars, i: nat, q: Byte, failure: Failure)
    requires i < |s| && q != 0 && ParseQuoted(s, i, q, failure).Ok?
    ensures 0 !in ParseQuoted(s, i, q, failure).value
  {
    var e := ScanQuoted(s, i + 1, q);
    ScanQuotedIsFirst(s, i + 1, e, q);
    var w := s[i + 1..e];
    forall k | 0 <= k < |w| ensures w[k] != 0 {
      assert w[k] == s[i + 1 + k];
    }
  }

  /** A printed string is read back exactly when it is quote-safe. */
  lemma StringReadsIff(w: Chars, s: Chars)
    requires PrintString(w) <= s
    ensures ParseTerm(s, 0) == Ok(Str(w), |PrintString(w)|) <==> QuoteSafe(w, DQUOTE)
  {
    MatchesPrefix(s, PrintString(w));
    assert s[0] == DQUOTE;
    SimpleStart(s);
    if 0 in w {
      if ParseQuoted(s, 0, DQUOTE, UnclosedString).Ok? { QuotedHasNoNul(s, 0, DQUOTE, UnclosedString); }
    } else {
      CStrOfNulFree(w);
      QuotedReads(s, 0, w, DQUOTE, UnclosedString);
    }
  }

  /** A printed binary is read back exactly when it is not printed as text that holds `">>`. */
  lemma BinaryReadsIff(d: seq<Byte>, s: Chars)
    requires PrintBinary(d) <= s
    ensures ParseTerm(s, 0) == Ok(Binary(d), |PrintBinary(d)|) <==> BinaryReadable(d)
  {
    MatchesPrefix(s, PrintBinary(d));
    assert s[0] == PrintBinary(d)[0] == LESS;
    SimpleStart(s);
    if PrintsAsText(d) { TextBinaryReads(s, 0, d); } else { ByteBinaryReads(s, 0, d); }
  }

  lemma {:induction false} SpanInClass(s: Chars, i: nat, k: CharClass)
    requires i <= |s|
    ensures forall j | i <= j < Span(s, i, k) :: InClass(s[j], k)
    decreases |s| - i
  {
    if i < |s| && InClass(s[i], k) { SpanInClass(s, i + 1, k); }
  }

  /** A printed atom is read back exactly when it is bare, or quoted and quote-safe. */
  lemma AtomReadsIff(n: Name, s: Chars)
    requires ValidName(n) && LedBy(s, PrintAtom(n))
    ensures ParseTerm(s, 0) == Ok(Atom(n), |PrintAtom(n)|) <==> AtomReadable(n)
  {
    MatchesPrefix(s, PrintAtom(n));
    if 0 in n {
      NulIsNotRead(n, s);
    } else {
      CStrOfNulFree(n);
      NulFreeAtomReadsIff(n, s);
    }
  }

  lemma NulIsNotRead(n: Name, s: Chars)
    requires 0 in n && PrintAtom(n) <= s
    ensures ParseTerm(s, 0) != Ok(Atom(n), |PrintAtom(n)|) && !AtomReadable(n)
  {
    if PrintsQuoted(n) {
      assert s[0] == QUOTE;
      SimpleStart(s);
      if ParseQuoted(s, 0, QUOTE, UnclosedAtom).Ok? { QuotedHasNoNul(s, 0, QUOTE, UnclosedAtom); }
    } else {
      assert s[0] == n[0];
      SimpleStart(s);
      BareHasNoNul(s, 0);
    }
  }

  /** No atom without quotes holds a NUL. */
  lemma BareHasNoNul(s: Chars, i: nat)
    requires i <= |s|
    ensures ParseAtom(s, i).Ok? ==> ParseAtom(s, i).value.Atom? && 0 !in ParseAtom(s, i).value.name
  {
    var j := Skip(s, i, false);
    SpanInClass(s, j, AtomChars);
    var e := Span(s, j, AtomChars);
    assert forall k | 0 <= k < e - j :: s[j..e][k] == s[j + k];
  }

  lemma NulFreeAtomReadsIff(n: Name, s: Chars)
    requires ValidName(n) && 0 !in n && CStr(n) == n && LedBy(s, PrintAtom(n))
    ensures ParseTerm(s, 0) == Ok(Atom(n), |PrintAtom(n)|) <==> AtomReadable(n)
  {
    BareHasNoBlank(n);
    if PrintsQuoted(n) {
      QuotedAtomReadsIff(n, s);
    } else if BareAtom(n) {
      BareAtomIsRead(n, s);
    } else {
      OddAtomIsNotRead(n, s);
    }
  }

  lemma QuotedAtomReadsIff(n: Name, s: Chars)
    requires ValidName(n) && 0 !in n && [QUOTE] + n + [QUOTE] <= s
    ensures ParseTerm(s, 0) == Ok(Atom(n), |n| + 2) <==> QuoteSafe(n, QUOTE)
  {
    MatchesPrefix(s, [QUOTE] + n + [QUOTE]);
    assert s[0] == QUOTE;
    SimpleStart(s);
    QuotedReads(s, 0, n, QUOTE, UnclosedAtom);
  }

  lemma BareAtomIsRead(n: Name, s: Chars)
    requires ValidName(n) && BareAtom(n) && LedBy(s, n)
    ensures ParseTerm(s, 0) == Ok(Atom(n), |n|)
  {
    MatchesPrefix(s, n);
    assert s[0] == n[0];
    SimpleStart(s);
    BareAtomReads(s, 0, n);
  }

  /** An atom that is printed bare but holds another character is cut short. */
  lemma OddAtomIsNotRead(n: Name, s: Chars)
    requires n != [] && IsLower(n[0]) && !BareAtom(n) && n <= s
    ensures ParseTerm(s, 0) != Ok(Atom(n), |n|)
  {
    var c :| c in n && !InClass(c, AtomChars);
    var j :| 0 <= j < |n| && n[j] == c;
    assert s[j] == c;
    SimpleStart(s);
    SpanInClass(s, 0, AtomChars);
  }
}
