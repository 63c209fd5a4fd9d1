/**
 * The parser as the source runs it: loops and mutually recursive calls that move one
 * shared cursor over the text. Every operation is proved against its specification
 * in `Text`.
 */
module TextCursor {
  import opened Terms
  import opened Text

  datatype Result<+T> = Done(value: T) | Fail(failure: Failure)

  function ResultOf<T>(p: Parsed<T>): Result<T> {
    match p
    case Ok(v, _) => Done(v)
    case Err(e) => Fail(e)
  }

  class Cursor {
    const text: Chars
    var pos: nat

    constructor (text: Chars)
      ensures this.text == text && pos == 0
    {
      this.text := text;
      pos := 0;
    }

    ghost predicate Valid()
      reads this
    {
      pos <= |text|
    }

    /** Having parsed `p`: its answer is `r`, and on success the cursor is behind it. */
    ghost predicate Parses<T>(p: Parsed<T>, r: Result<T>)
      reads this
    {
      r == ResultOf(p) && (p.Ok? ==> pos == p.pos)
    }

    method SkipBlanksAndComments()
      requires Valid()
      modifies this
      ensures Valid() && pos == Skip(text, old(pos), false)
    {
      var inside := false;
      while CharAt(text, pos) != 0
        invariant Valid() && Skip(text, pos, inside) == Skip(text, old(pos), false)
        decreases |text| - pos
      {
        var c := CharAt(text, pos);
        if inside {
          if c == NEWLINE { inside := false; }
        } else if IsBlank(c) {
        } else if c == PERCENT {
          inside := true;
        } else {
          break;
        }
        pos := pos + 1;
      }
    }

    method ScanClass(start: nat, k: CharClass) returns (p: nat)
      requires start <= |text|
      ensures p == Span(text, start, k)
    {
      p := start;
      while CharAt(text, p) != 0 && InClass(CharAt(text, p), k)
        invariant p <= |text| && Span(text, p, k) == Span(text, start, k)
        decreases |text| - p
      {
        p := p + 1;
      }
    }

    method PVariable() returns (r: Result<Term>)
      requires Valid() && (IsUpper(CharAt(text, pos)) || CharAt(text, pos) == UNDERSCORE)
      modifies this
      ensures Valid() && Parses(ParseVariable(text, old(pos)), r)
    {
      var start := pos;
      SkipBlanksAndComments();
      var end := ScanClass(start, VarChars);
      var p, ty := end, UndefinedT;
      if CharAt(text, p) == COLON && CharAt(text, p + 1) == COLON {
        var tps := p + 2;
        p := ScanClass(tps, TypeChars);
        if CharAt(text, p) == LPAREN && CharAt(text, p + 1) == RPAREN {
          ty := TypeNamed(text[tps..p]);
          if ty.UndefinedT? {
            return Fail(BadTypeName);
          }
          p := p + 2;
        } else {
          return Fail(BadTypeSyntax);
        }
      }
      pos := p;
      r := ResultOf(MakeVar(text[start..end], ty, p));
    }

    method PAtom() returns (r: Result<Term>)
      requires Valid()
      modifies this
      ensures Valid() && Parses(ParseAtom(text, old(pos)), r)
    {
      SkipBlanksAndComments();
      var start := pos;
      var p := ScanClass(start, AtomChars);
      pos := p;
      r := ResultOf(MakeAtom(text[start..p], p));
    }

    /** The scan that `pquotedatom` and `pstring` share; the cursor is on the opening quote. */
    method PQuoted(q: Byte, failure: Failure) returns (r: Result<Chars>)
      requires pos < |text| && q != 0
      modifies this
      ensures Valid() && Parses(ParseQuoted(text, old(pos), q, failure), r)
    {
      pos := pos + 1;
      var start := pos;
      var p := start;
      while CharAt(text, p) != 0 && (CharAt(text, p) != q || text[p - 1] == BACKSLASH)
        invariant start <= p <= |text| && ScanQuoted(text, p, q) == ScanQuoted(text, start, q)
        decreases |text| - p
      {
        p := p + 1;
      }
      if CharAt(text, p) != q {
        return Fail(failure);
      }
      pos := p + 1;
      r := Done(text[start..p]);
    }

    method PDigit() returns (r: Result<Term>)
      requires pos < |text| && (IsDigit(text[pos]) || text[pos] == MINUS)
      modifies this
      ensures Valid() && Parses(ParseNumber(text, old(pos)), r)
    {
      var start: nat, p: nat := pos, pos;
      var dot, base := false, 10;
      SkipBlanksAndComments();
      if text[p] == MINUS {
        p := p + 1;
      }
      while CharAt(text, p) != 0
        invariant start <= p <= |text|
        invariant ScanNumber(text, Number(p, start, base, dot))
               == ScanNumber(text, Number(old(pos) + 1, old(pos), 10, false))
        decreases |text| - p
      {
        var c := CharAt(text, p);
        if IsDigit(c) {
        } else if c == DOT && !dot {
          dot := true;
        } else if c == HASH {
          base := Wrap32(StrToL(text, start, 10));
          start := p + 1;
        } else {
          break;
        }
        p := p + 1;
      }
      pos := p;
      r := if dot then Fail(DoubleLiteral) else Done(Long(StrToL(text, start, base)));
    }

    method FastAtoiLoop(start: nat, end: nat) returns (x: int, p: nat)
      requires start < end < |text| && text[end] == GREATER
      ensures (x, p) == FastAtoi(text, start, end)
    {
      p := start;
      var neg := text[p] == MINUS;
      if neg {
        p := p + 1;
      }
      x := 0;
      ghost var from := p;
      while true
        invariant from <= p <= end
        invariant AtoiDigits(text, p, end, x) == AtoiDigits(text, from, end, 0)
        decreases end - p
      {
        if !IsDigit(text[p]) {
          break;
        }
        x := Wrap32(x * 10 + text[p] - 48);
        p := p + 1;
        if p == end {
          break;
        }
      }
      if neg {
        x := Wrap32(-x);
      }
    }

    method SkipBlankRun(start: nat) returns (p: nat)
      requires start <= |text|
      ensures p == SkipBlanks(text, start)
    {
      p := start;
      while CharAt(text, p) == BLANK || CharAt(text, p) == TAB
        invariant p <= |text| && SkipBlanks(text, p) == SkipBlanks(text, start)
        decreases |text| - p
      {
        p := p + 1;
      }
    }

    /** The bytes of `<<b1, b2, ...>>`, up to the `>>` at `end`. */
    method PBytes(start: nat, end: nat) returns (r: Result<seq<Byte>>)
      requires start <= end < |text| && text[end] == GREATER
      ensures r == ResultOf(ParseBytes(text, start, end, []))
    {
      var p := start;
      var bytes: seq<Byte> := [];
      while p < end
        invariant start <= p <= end
        invariant ParseBytes(text, p, end, bytes) == ParseBytes(text, start, end, [])
        decreases end - p
      {
        SkipBlanksStops(text, p, end);
        p := SkipBlankRun(p);
        if p == end {
          return Fail(BadBinary);
        }
        var x, q := FastAtoiLoop(p, end);
        p := q;
        if x < 0 || x > 255 {
          return Fail(BadByteValue);
        }
        SkipBlanksStops(text, p, end);
        p := SkipBlankRun(p);
        bytes := bytes + [x];
        if text[p] == COMMA {
          p := p + 1;
        } else if p < end {
          return Fail(BadByteDelimiter);
        }
      }
      r := Done(bytes);
    }

    method PBinary() returns (r: Result<Term>)
      requires Valid()
      modifies this
      ensures Valid() && Parses(ParseBinary(text, old(pos)), r)
    {
      if CharAt(text, pos) != LESS {
        return Fail(BadBinary);
      }
      if CharAt(text, pos + 1) == DQUOTE {
        pos := pos + 2;
        var end := FindText(text, pos, CLOSE_TEXT);
        if end.None? {
          return Fail(UnclosedBinary);
        }
        r := Done(Binary(text[pos..end.value]));
        pos := end.value + 3;
      } else {
        pos := pos + 1;
        var end := FindText(text, pos, CLOSE_BYTES);
        if end.None? {
          return Fail(UnclosedBinary);
        }
        assert text[end.value] == CLOSE_BYTES[0] && text[end.value + 1] == CLOSE_BYTES[1];
        var bytes := PBytes(pos, end.value);
        if bytes.Fail? {
          return Fail(bytes.failure);
        }
        r := Done(Binary(bytes.value));
        pos := end.value + 2;
      }
    }

    method PTuple(v: seq<Term>) returns (r: Result<seq<Term>>)
      requires Valid()
      modifies this
      ensures Valid() && Parses(ItemsAt(text, Simple(text), old(pos), RBRACE, v), r)
      decreases |text| - pos, 2
    {
      SkipBlanksAndComments();
      var c := CharAt(text, pos);
      if c == RBRACE {
        pos := pos + 1;
        r := Done(v);
      } else if c == COMMA {
        pos := pos + 1;
        r := PTuple(v);
      } else {
        var t := EFormat();
        if t.Fail? {
          return Fail(t.failure);
        }
        r := PTuple(v + [t.value]);
      }
    }

    method PList(v: seq<Term>) returns (r: Result<seq<Term>>)
      requires Valid()
      modifies this
      ensures Valid() && Parses(ItemsAt(text, Simple(text), old(pos), RBRACKET, v), r)
      decreases |text| - pos, 2
    {
      SkipBlanksAndComments();
      var c := CharAt(text, pos);
      if c == RBRACKET {
        pos := pos + 1;
        r := Done(v);
      } else if c == COMMA {
        pos := pos + 1;
        r := PList(v);
      } else if c == PIPE {
        pos := pos + 1;
        r := PTail(v);
      } else {
        var t := EFormat();
        if t.Fail? {
          return Fail(t.failure);
        }
        r := PList(v + [t.value]);
      }
    }

    method PTail(v: seq<Term>) returns (r: Result<seq<Term>>)
      requires Valid()
      modifies this
      ensures Valid() && Parses(TailAt(text, Simple(text), old(pos), v), r)
    {
      SkipBlanksAndComments();
      var c := CharAt(text, pos);
      if !IsUpper(c) && c != UNDERSCORE {
        return Fail(BadList);
      }
      var a := PVariable();
      if a.Fail? {
        return Fail(a.failure);
      }
      SkipBlanksAndComments();
      if CharAt(text, pos) == RBRACKET {
        r := Done(v + [a.value]);
      } else {
        r := Fail(BadList);
      }
    }

    method EFormat() returns (r: Result<Term>)
      requires Valid()
      modifies this
      ensures Valid() && Parses(ParseTerm(text, old(pos)), r)
      decreases |text| - pos, 1
    {
      SkipBlanksAndComments();
      var c := CharAt(text, pos);
      if c == LBRACE {
        pos := pos + 1;
        var v := PTuple([]);
        r := if v.Done? then Done(Tuple(v.value)) else Fail(v.failure);
      } else if c == LBRACKET {
        pos := pos + 1;
        if CharAt(text, pos) == RBRACKET {
          pos := pos + 1;
          r := Done(List([]));
        } else {
          var v := PList([]);
          r := if v.Done? then Done(List(v.value)) else Fail(v.failure);
        }
      } else {
        r := PSimple();
      }
    }

    method PSimple() returns (r: Result<Term>)
      requires Valid()
      modifies this
      ensures Valid() && Parses(ParseSimple(text, old(pos)), r)
    {
      var c := CharAt(text, pos);
      if c == LESS {
        pos := pos + 1;
        r := PBinary();
      } else if c == DOLLAR {
        pos := pos + 1;
        var d := CharAt(text, pos);
        if d == 0 {
          return Fail(PastEnd);
        }
        pos := pos + 1;
        r := Done(Long(SignedChar(d)));
      } else if c == TILDE {
        r := Fail(Directive);
      } else if IsLower(c) {
        r := PAtom();
      } else if IsUpper(c) || c == UNDERSCORE {
        r := PVariable();
      } else if IsDigit(c) || c == MINUS {
        r := PDigit();
      } else if c == DQUOTE {
        var v := PQuoted(DQUOTE, UnclosedString);
        r := if v.Done? then Done(Str(v.value)) else Fail(v.failure);
      } else if c == QUOTE {
        var v := PQuoted(QUOTE, UnclosedAtom);
        r := if v.Done? then ResultOf(MakeAtom(v.value, pos)) else Fail(v.failure);
      } else {
        r := Fail(InvalidTerm);
      }
    }
  }
}
