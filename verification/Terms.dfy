/** Erlang terms as values: the tagged union `eterm` without its storage. */
module Terms {

  type Byte = b: int | 0 <= b < 256

  /**
   * Atom, variable and node names are byte strings (UTF-8), as the atom table stores them.
   * No two stored names share a C string, so comparing them by index, by `strcmp` (as the
   * binding map does) and by content is one and the same.
   */
  type Name = seq<Byte>

  datatype Option<+T> = None | Some(value: T)

  datatype TermType =
    | UndefinedT | LongT | DoubleT | BoolT | AtomT | VarT | StringT | BinaryT
    | PidT | PortT | RefT | TupleT | ListT | MapT | TraceT

  datatype Term =
    | Long(value: int)
    | Bool(flag: bool)
    | Atom(name: Name)
    | Str(chars: seq<Byte>)
    | Binary(data: seq<Byte>)
    | Pid(node: Name, id: nat, serial: nat, creation: nat)
    | Ref(node: Name, ids: seq<nat>, creation: nat)
    | Tuple(elems: seq<Term>)
    | List(elems: seq<Term>)
    | Var(name: Name, ty: TermType)

  /** The anonymous variable `_`. */
  const ANY: Name := [95]

  /** `MAXATOMLEN_UTF8` and `MAXATOMLEN` of the Erlang interface library. */
  const MAX_ATOM_BYTES := 1021
  const MAX_ATOM_CHARS := 255

  /** The range of `long`. */
  const LONG_MAX := 0x7fff_ffff_ffff_ffff
  const LONG_MIN := -0x8000_0000_0000_0000

  /** Number of UTF-8 code points before the first NUL. */
  function Utf8Length(n: Name): nat {
    if n == [] || n[0] == 0 then 0
    else (if 128 <= n[0] < 192 then 0 else 1) + Utf8Length(n[1..])
  }

  lemma {:induction false} CodePointsAtMostBytes(n: Name)
    ensures Utf8Length(n) <= |n|
  {
    if n != [] { CodePointsAtMostBytes(n[1..]); }
  }

  /** Names that the atom table accepts. */
  predicate ValidName(n: Name) {
    |n| <= MAX_ATOM_BYTES && Utf8Length(n) <= MAX_ATOM_CHARS
  }

  const TRUE_NAME: Name := [116, 114, 117, 101]
  const FALSE_NAME: Name := [102, 97, 108, 115, 101]

  function BoolName(b: bool): Name {
    if b then TRUE_NAME else FALSE_NAME
  }

  function TypeOf(t: Term): TermType {
    match t
    case Long(_) => LongT
    case Bool(_) => BoolT
    case Atom(_) => AtomT
    case Str(_) => StringT
    case Binary(_) => BinaryT
    case Pid(_, _, _, _) => PidT
    case Ref(_, _, _) => RefT
    case Tuple(_) => TupleT
    case List(_) => ListT
    case Var(_, _) => VarT
  }

  predicate IsAny(v: Term)
    requires v.Var?
  {
    v.name == ANY
  }

  /** No variable occurs in the term. */
  predicate Ground(t: Term) {
    match t
    case Var(_, _) => false
    case Tuple(es) => forall e | e in es :: Ground(e)
    case List(es) => forall e | e in es :: Ground(e)
    case _ => true
  }

  /** No string in the term holds a NUL byte. */
  predicate NulFree(t: Term) {
    match t
    case Str(s) => 0 !in s
    case Tuple(es) => forall e | e in es :: NulFree(e)
    case List(es) => forall e | e in es :: NulFree(e)
    case _ => true
  }

  predicate AllGround(ts: seq<Term>) {
    forall t | t in ts :: Ground(t)
  }

  predicate AllNulFree(ts: seq<Term>) {
    forall t | t in ts :: NulFree(t)
  }

  /** Ground, NUL-free terms: on these `operator==` is identity. */
  predicate Value(t: Term) {
    Ground(t) && NulFree(t)
  }

  /** Number of nodes; every term counts at least one. */
  function Size(t: Term): (n: nat)
    ensures n >= 1
    decreases t, 0
  {
    match t
    case Tuple(es) => 1 + SizeAll(es)
    case List(es) => 1 + SizeAll(es)
    case _ => 1
  }

  function SizeAll(ts: seq<Term>): nat
    decreases ts, 1
  {
    if ts == [] then 0 else Size(ts[0]) + SizeAll(ts[1..])
  }

  /** Number of variable occurrences. */
  function Vars(t: Term): nat
    decreases t, 0
  {
    match t
    case Var(_, _) => 1
    case Tuple(es) => VarsAll(es)
    case List(es) => VarsAll(es)
    case _ => 0
  }

  function VarsAll(ts: seq<Term>): nat
    decreases ts, 1
  {
    if ts == [] then 0 else Vars(ts[0]) + VarsAll(ts[1..])
  }

  lemma {:induction false} GroundHasNoVars(t: Term)
    ensures Ground(t) <==> Vars(t) == 0
    decreases t, 0
  {
    match t
    case Tuple(es) => AllGroundHaveNoVars(es);
    case List(es) => AllGroundHaveNoVars(es);
    case _ =>
  }

  lemma {:induction false} AllGroundHaveNoVars(ts: seq<Term>)
    ensures AllGround(ts) <==> VarsAll(ts) == 0
    decreases ts, 1
  {
    if ts != [] {
      GroundHasNoVars(ts[0]);
      AllGroundHaveNoVars(ts[1..]);
      assert forall t :: t in ts <==> t == ts[0] || t in ts[1..];
    }
  }

  /** The part of a byte string that the C string functions see. */
  function CStr(s: seq<Byte>): seq<Byte> {
    if s == [] || s[0] == 0 then [] else [s[0]] + CStr(s[1..])
  }

  /** The places before the first NUL where a code point starts: any byte but a continuation. */
  ghost function CodePoints(n: Name): set<nat> {
    set i: nat | i < |n| && 0 !in n[..i + 1] && !(128 <= n[i] <= 191)
  }

  ghost function Successors(s: set<nat>): set<nat> {
    set i | i in s :: i + 1
  }

  lemma {:induction false} AsManySuccessors(s: set<nat>)
    ensures |Successors(s)| == |s|
    decreases |s|
  {
    if s != {} {
      var x :| x in s;
      var rest := s - {x};
      AsManySuccessors(rest);
      forall y ensures y in Successors(s) <==> y in Successors(rest) + {x + 1} {
        assert y > 0 ==> (y - 1 in s <==> y - 1 in rest || y - 1 == x);
      }
      assert Successors(s) == Successors(rest) + {x + 1};
    }
  }

  lemma CodePointsOfRest(n: Name)
    requires n != [] && n[0] != 0
    ensures CodePoints(n) == (if 128 <= n[0] <= 191 then {} else {0}) + Successors(CodePoints(n[1..]))
  {
    var rest := n[1..];
    forall i: nat | 0 < i < |n| ensures i in CodePoints(n) <==> i - 1 in CodePoints(rest) {
      assert n[..i + 1] == [n[0]] + rest[..i];
    }
    forall i | i in CodePoints(n) && i > 0 ensures i in Successors(CodePoints(rest)) {
      assert i - 1 in CodePoints(rest);
    }
    assert n[..1] == [n[0]];
  }

  /** `Utf8Length` counts code points: the bytes that start one, up to the first NUL. */
  lemma {:induction false} Utf8LengthCounts(n: Name)
    ensures Utf8Length(n) == |CodePoints(n)|
  {
    if n == [] {
    } else if n[0] == 0 {
      forall i: nat | i < |n| ensures i !in CodePoints(n) {
        assert n[..i + 1][0] == 0;
      }
    } else {
      Utf8LengthCounts(n[1..]);
      CodePointsOfRest(n);
      AsManySuccessors(CodePoints(n[1..]));
    }
  }

  lemma {:induction false} CStrOfNulFree(s: seq<Byte>)
    requires 0 !in s
    ensures CStr(s) == s
  {
    if s != [] {
      CStrOfNulFree(s[1..]);
      assert s == [s[0]] + s[1..];
    }
  }

  /**
   * `eterm::operator==`: same type and same content. Strings compare by size and
   * `strcmp`; a variable is equal to nothing, not even to itself.
   */
  predicate Equal(t: Term, u: Term) {
    match t
    case Str(s) => u.Str? && |s| == |u.chars| && CStr(s) == CStr(u.chars)
    case Tuple(es) => u.Tuple? && |es| == |u.elems| && forall i | 0 <= i < |es| :: Equal(es[i], u.elems[i])
    case List(es) => u.List? && |es| == |u.elems| && forall i | 0 <= i < |es| :: Equal(es[i], u.elems[i])
    case Var(_, _) => false
    case _ => t == u
  }

  lemma {:induction false} EqualSymmetric(t: Term, u: Term)
    ensures Equal(t, u) <==> Equal(u, t)
  {
    if (t.Tuple? && u.Tuple?) || (t.List? && u.List?) {
      forall i | 0 <= i < |t.elems| && i < |u.elems|
        ensures Equal(t.elems[i], u.elems[i]) <==> Equal(u.elems[i], t.elems[i])
      {
        EqualSymmetric(t.elems[i], u.elems[i]);
      }
    }
  }

  /** On NUL-free terms `operator==` is identity of ground terms. */
  lemma {:induction false} EqualIsIdentity(t: Term, u: Term)
    requires NulFree(t) && NulFree(u)
    ensures Equal(t, u) <==> t == u && Ground(t)
    decreases t, 1
  {
    match t
    case Str(s) =>
      CStrOfNulFree(s);
      if u.Str? { CStrOfNulFree(u.chars); }
    case Tuple(es) =>
      if u.Tuple? && |es| == |u.elems| { ElementwiseIdentity(t, u); }
    case List(es) =>
      if u.List? && |es| == |u.elems| { ElementwiseIdentity(t, u); }
    case _ =>
  }

  lemma {:induction false} ElementwiseIdentity(t: Term, u: Term)
    requires NulFree(t) && NulFree(u)
    requires (t.Tuple? && u.Tuple?) || (t.List? && u.List?)
    requires |t.elems| == |u.elems|
    ensures Equal(t, u) <==> t == u && Ground(t)
    decreases t, 0
  {
    var ts, us := t.elems, u.elems;
    forall i | 0 <= i < |ts| ensures Equal(ts[i], us[i]) <==> ts[i] == us[i] && Ground(ts[i]) {
      EqualIsIdentity(ts[i], us[i]);
    }
    if Equal(t, u) { assert ts == us; }
  }
}
