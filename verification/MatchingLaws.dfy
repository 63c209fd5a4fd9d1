/**
 * What typed variables accept, spelled out constructor by constructor, and which variable a
 * substitution fails on.
 */
module MatchingLaws {
  import opened Terms
  import opened Matching

  /** A free variable takes the values of its type, and is bound to them. */
  lemma FreeVariableTakes(t: Term, n: Name, ty: TermType, b: Bindings)
    requires Value(t) && ValueBindings(b) && n != [95] && n !in b
    ensures Match(t, Var(n, ty), b) == if Takes(ty, t) then Bound(b[n := t]) else NoMatch
    ensures Match(Var(n, ty), t, b) == if Takes(ty, t) then Bound(b[n := t]) else NoMatch
  {
    MatchVariable(t, Var(n, ty), b);
    MatchOrientation(t, Var(n, ty), b);
  }

  /** A bound variable takes its own value, if that is of its type. */
  lemma BoundVariableTakes(t: Term, n: Name, ty: TermType, b: Bindings)
    requires Value(t) && ValueBindings(b) && n != [95] && n in b
    ensures Match(t, Var(n, ty), b) == if Takes(ty, t) && b[n] == t then Bound(b) else NoMatch
    ensures Match(Var(n, ty), t, b) == if Takes(ty, t) && b[n] == t then Bound(b) else NoMatch
  {
    MatchVariable(t, Var(n, ty), b);
    MatchOrientation(t, Var(n, ty), b);
    if b[n] == t { assert b[n := t] == b; }
  }

  /** `_` takes everything and is never bound. */
  lemma AnonymousTakesAll(t: Term, ty: TermType, b: Bindings)
    requires Ground(t) && GroundBindings(b)
    ensures Match(t, Var([95], ty), b) == Bound(b) && Match(Var([95], ty), t, b) == Bound(b)
  {
    MatchOrientation(t, Var([95], ty), b);
  }

  // ----- substitution -----

  /** The occurrences of variables, from left to right. */
  function Occurrences(t: Term): seq<Term>
    decreases t, 0
  {
    match t
    case Var(_, _) => [t]
    case Tuple(es) => AllOccurrences(es)
    case List(es) => AllOccurrences(es)
    case _ => []
  }

  function AllOccurrences(ts: seq<Term>): seq<Term>
    decreases ts, 1
  {
    if ts == [] then [] else Occurrences(ts[0]) + AllOccurrences(ts[1..])
  }

  /** What substitution can replace: a bound variable whose value is of its type. */
  predicate Replaceable(v: Term, b: Bindings) {
    v.Var? && v.name in b && (v.name == [95] || Takes(v.ty, b[v.name]))
  }

  /** `k` is the first occurrence that cannot be replaced. */
  predicate FirstStuck(vs: seq<Term>, b: Bindings, k: nat) {
    k < |vs| && !Replaceable(vs[k], b) && forall j | 0 <= j < k :: Replaceable(vs[j], b)
  }

  lemma {:induction false} OccurrencesAreVars(t: Term)
    ensures forall k | 0 <= k < |Occurrences(t)| :: Occurrences(t)[k].Var?
    ensures Ground(t) <==> Occurrences(t) == []
    decreases t, 0
  {
    match t
    case Tuple(es) => AllOccurrencesAreVars(es);
    case List(es) => AllOccurrencesAreVars(es);
    case _ =>
  }

  lemma {:induction false} AllOccurrencesAreVars(ts: seq<Term>)
    ensures forall k | 0 <= k < |AllOccurrences(ts)| :: AllOccurrences(ts)[k].Var?
    ensures AllGround(ts) <==> AllOccurrences(ts) == []
    decreases ts, 1
  {
    if ts != [] {
      OccurrencesAreVars(ts[0]);
      AllOccurrencesAreVars(ts[1..]);
      assert forall t :: t in ts <==> t == ts[0] || t in ts[1..];
    }
  }

  predicate IsNamed(v: Term, n: Name) {
    v.Var? && v.name == n
  }

  /** What `FirstUnbound` says of a list of occurrences. */
  predicate Finds(r: Option<Name>, vs: seq<Term>, b: Bindings) {
    match r
    case None => forall j | 0 <= j < |vs| :: Replaceable(vs[j], b)
    case Some(n) => exists k | 0 <= k < |vs| :: FirstStuck(vs, b, k) && IsNamed(vs[k], n)
  }

  lemma FindsJoin(r: Option<Name>, q: Option<Name>, us: seq<Term>, vs: seq<Term>, b: Bindings)
    requires Finds(r, us, b) && Finds(q, vs, b)
    ensures Finds(if r.Some? then r else q, us + vs, b)
  {
    var ws := us + vs;
    assert forall j | 0 <= j < |us| :: ws[j] == us[j];
    if r.Some? {
      var k :| 0 <= k < |us| && FirstStuck(us, b, k) && IsNamed(us[k], r.value);
      assert FirstStuck(ws, b, k);
    } else if q.Some? {
      var k :| 0 <= k < |vs| && FirstStuck(vs, b, k) && IsNamed(vs[k], q.value);
      assert ws[|us| + k] == vs[k];
      assert FirstStuck(ws, b, |us| + k);
    }
  }

  lemma {:induction false} FirstUnboundFinds(t: Term, b: Bindings)
    ensures Finds(FirstUnbound(t, b), Occurrences(t), b)
    decreases t, 0
  {
    match t
    case Var(n, _) =>
      if !Replaceable(t, b) { assert FirstStuck([t], b, 0); }
    case Tuple(es) => FirstUnboundInFinds(es, b);
    case List(es) => FirstUnboundInFinds(es, b);
    case _ =>
  }

  lemma {:induction false} FirstUnboundInFinds(ts: seq<Term>, b: Bindings)
    ensures Finds(FirstUnboundIn(ts, b), AllOccurrences(ts), b)
    decreases ts, 1
  {
    if ts != [] {
      FirstUnboundFinds(ts[0], b);
      FirstUnboundInFinds(ts[1..], b);
      FindsJoin(FirstUnbound(ts[0], b), FirstUnboundIn(ts[1..], b), Occurrences(ts[0]), AllOccurrences(ts[1..]), b);
    }
  }

  /**
   * `subst` throws iff some variable is unbound or bound to a value that is not of its
   * type, and it names the leftmost of them; it answers false iff there is no variable.
   */
  lemma SubstThrowsIff(t: Term, b: Bindings)
    ensures SubstOf(t, b).Throws? <==> exists k | 0 <= k < |Occurrences(t)| :: !Replaceable(Occurrences(t)[k], b)
    ensures SubstOf(t, b).Throws? ==>
      exists k: nat :: FirstStuck(Occurrences(t), b, k) && IsNamed(Occurrences(t)[k], SubstOf(t, b).name)
    ensures SubstOf(t, b).Unchanged? <==> Occurrences(t) == []
  {
    FirstUnboundFinds(t, b);
    OccurrencesAreVars(t);
  }

  /** One variable on its own. */
  lemma SubstOfVariable(n: Name, ty: TermType, b: Bindings)
    ensures SubstOf(Var(n, ty), b) == if n in b && (n == [95] || Takes(ty, b[n])) then Changed(b[n]) else Throws(n)
  {
  }

  // ----- equality of strings -----

  /** No NUL stands before position `k`. */
  predicate Reaches(s: seq<Byte>, k: nat) {
    forall j | 0 <= j < k && j < |s| :: s[j] != 0
  }

  lemma {:induction false} CStrIs(s: seq<Byte>)
    ensures var c := CStr(s);
      c <= s && Reaches(s, |c|) && 0 !in c && (|c| == |s| || s[|c|] == 0)
  {
    if s != [] && s[0] != 0 {
      CStrIs(s[1..]);
      assert s == [s[0]] + s[1..];
    }
  }

  /** Strings are equal iff they have the same size and agree as far as the first NUL. */
  lemma StringsEqualIff(s: seq<Byte>, u: seq<Byte>)
    ensures Equal(Str(s), Str(u)) <==> |s| == |u| && forall k | 0 <= k < |s| && Reaches(s, k) :: s[k] == u[k]
  {
    CStrIs(s);
    CStrIs(u);
    var c, d := CStr(s), CStr(u);
    if |s| == |u| && forall k | 0 <= k < |s| && Reaches(s, k) :: s[k] == u[k] {
      assert forall k | 0 <= k < |c| :: Reaches(s, k);
      assert |c| < |s| ==> Reaches(s, |c|);
      assert forall k | 0 <= k < |c| :: u[k] == s[k] == c[k];
      assert c == d;
    }
    if Equal(Str(s), Str(u)) {
      forall k | 0 <= k < |s| && Reaches(s, k)
        ensures s[k] == u[k]
      {
        assert k <= |c|;
      }
    }
  }
}
