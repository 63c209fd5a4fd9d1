/**
 * Substitution and pattern matching on values: `eterm::subst` and `eterm::match`
 * with one binding threaded depth first. `Binding.dfy` proves that the code, which
 * copies and merges bindings at every nesting level, computes exactly this.
 */
module Matching {
  import opened Terms

  type Bindings = map<Name, Term>

  ghost predicate GroundBindings(b: Bindings) {
    forall n | n in b :: Ground(b[n])
  }

  ghost predicate ValueBindings(b: Bindings) {
    forall n | n in b :: Value(b[n])
  }

  /** `s` agrees with `b` on everything `b` binds. */
  ghost predicate Extends(s: Bindings, b: Bindings) {
    b.Keys <= s.Keys && forall n | n in b :: s[n] == b[n]
  }

  /** `var::check_type`: does the variable `v` accept the term `t`? */
  predicate CheckType(v: Term, t: Term)
    requires v.Var?
  {
    || IsAny(v)
    || v.ty.UndefinedT?
    || TypeOf(t) == v.ty
    || (v.ty.StringT? && t.List? && t.elems == [])
  }

  /** The value bound to `v`, when there is one that `v` accepts. */
  predicate Resolves(v: Term, b: Bindings)
    requires v.Var?
  {
    v.name in b && CheckType(v, b[v.name])
  }

  // ----- substitution -----

  /** Simultaneous substitution of every bound variable. */
  function Apply(t: Term, b: Bindings): Term
    decreases t, 0
  {
    match t
    case Var(n, _) => if n in b then b[n] else t
    case Tuple(es) => Tuple(ApplyAll(es, b))
    case List(es) => List(ApplyAll(es, b))
    case _ => t
  }

  function ApplyAll(ts: seq<Term>, b: Bindings): (r: seq<Term>)
    ensures |r| == |ts| && forall i | 0 <= i < |ts| :: r[i] == Apply(ts[i], b)
    decreases ts, 1
  {
    seq(|ts|, i requires 0 <= i < |ts| => Apply(ts[i], b))
  }

  /** The first variable, depth first from the left, that `b` cannot resolve. */
  function FirstUnbound(t: Term, b: Bindings): Option<Name>
    decreases t, 0
  {
    match t
    case Var(n, _) => if Resolves(t, b) then None else Some(n)
    case Tuple(es) => FirstUnboundIn(es, b)
    case List(es) => FirstUnboundIn(es, b)
    case _ => None
  }

  function FirstUnboundIn(ts: seq<Term>, b: Bindings): Option<Name>
    decreases ts, 1
  {
    if ts == [] then None
    else
      var u := FirstUnbound(ts[0], b);
      if u.Some? then u else FirstUnboundIn(ts[1..], b)
  }

  /** `subst` answers false, answers true and fills its output, or throws. */
  datatype SubstResult = Unchanged | Changed(term: Term) | Throws(name: Name)

  /**
   * What `subst` promises: it throws on the first unresolved variable, answers true
   * exactly when the term has a variable, and then yields the simultaneous substitution.
   */
  function SubstOf(t: Term, b: Bindings): SubstResult {
    match FirstUnbound(t, b)
    case Some(n) => Throws(n)
    case None => if Ground(t) then Unchanged else Changed(Apply(t, b))
  }

  /** The term that substitution leaves behind, whether or not it changed. */
  function Substituted(t: Term, b: Bindings): Option<Term> {
    match SubstOf(t, b)
    case Throws(_) => None
    case Unchanged => Some(t)
    case Changed(u) => Some(u)
  }

  lemma {:induction false} ResolvedElement(ts: seq<Term>, b: Bindings, i: nat)
    requires FirstUnboundIn(ts, b).None?
    requires i < |ts|
    ensures FirstUnbound(ts[i], b).None?
  {
    if i > 0 { ResolvedElement(ts[1..], b, i - 1); }
  }

  lemma {:induction false} AllResolved(ts: seq<Term>, b: Bindings)
    requires forall i | 0 <= i < |ts| :: FirstUnbound(ts[i], b).None?
    ensures FirstUnboundIn(ts, b).None?
  {
    if ts != [] {
      assert FirstUnbound(ts[0], b).None?;
      AllResolved(ts[1..], b);
    }
  }

  /** Substitution over ground bindings removes every variable. */
  lemma {:induction false} ApplyIsGround(t: Term, b: Bindings)
    requires GroundBindings(b)
    requires FirstUnbound(t, b).None?
    ensures Ground(Apply(t, b))
  {
    if t.Tuple? || t.List? {
      forall i | 0 <= i < |t.elems| ensures Ground(Apply(t.elems[i], b)) {
        ResolvedElement(t.elems, b, i);
        ApplyIsGround(t.elems[i], b);
      }
    }
  }

  lemma {:induction false} ApplyToGround(t: Term, b: Bindings)
    requires Ground(t)
    ensures FirstUnbound(t, b).None? && Apply(t, b) == t
  {
    if t.Tuple? || t.List? {
      var es := t.elems;
      forall i | 0 <= i < |es| ensures FirstUnbound(es[i], b).None? && Apply(es[i], b) == es[i] {
        ApplyToGround(es[i], b);
      }
      AllResolved(es, b);
      assert ApplyAll(es, b) == es;
    }
  }

  // ----- matching -----

  /** A match succeeds with new bindings, fails, or throws `err_unbound_variable`. */
  datatype Outcome = Bound(bindings: Bindings) | NoMatch | Unbound(name: Name)

  function Match(t: Term, p: Term, b: Bindings): (r: Outcome)
    requires GroundBindings(b)
    ensures r.Bound? ==> GroundBindings(r.bindings) && Extends(r.bindings, b)
    decreases Vars(t) + Vars(p), Size(t) + Size(p), if t.Var? then 0 else 1
  {
    match t
    case Var(n, _) =>
      if IsAny(t) then Bound(b)
      else if n in b then
        if CheckType(t, b[n]) then GroundHasNoVars(b[n]); Match(b[n], p, b) else NoMatch
      else if !CheckType(t, p) then NoMatch
      else Bind(n, p, b)
    case Tuple(es) =>
      if p.Var? then Match(p, t, b)
      else if p.Tuple? && |es| == |p.elems| then MatchAll(es, p.elems, b)
      else NoMatch
    case List(es) =>
      if p.Var? then Match(p, t, b)
      else if p.List? && |es| == |p.elems| then MatchAll(es, p.elems, b)
      else NoMatch
    case _ =>
      if p.Var? then Match(p, t, b)
      else if Equal(t, p) then Bound(b) else NoMatch
  }

  /** Bind an unbound name to what substitution makes of `p`. */
  function Bind(n: Name, p: Term, b: Bindings): (r: Outcome)
    requires GroundBindings(b) && n !in b
    ensures r.Bound? ==> GroundBindings(r.bindings) && Extends(r.bindings, b)
  {
    match SubstOf(p, b)
    case Throws(x) => Unbound(x)
    case Unchanged => Bound(b[n := p])
    case Changed(u) => ApplyIsGround(p, b); Bound(b[n := u])
  }

  function MatchAll(ts: seq<Term>, ps: seq<Term>, b: Bindings): (r: Outcome)
    requires GroundBindings(b) && |ts| == |ps|
    ensures r.Bound? ==> GroundBindings(r.bindings) && Extends(r.bindings, b)
    decreases VarsAll(ts) + VarsAll(ps), SizeAll(ts) + SizeAll(ps), 2
  {
    if ts == [] then Bound(b)
    else
      match Match(ts[0], ps[0], b)
      case Bound(b1) => MatchAll(ts[1..], ps[1..], b1)
      case NoMatch => NoMatch
      case Unbound(n) => Unbound(n)
  }

  // ----- what a match means, stated without the algorithm -----

  /** The terms that a variable of type `ty` stands for. */
  predicate Takes(ty: TermType, t: Term) {
    || ty.UndefinedT?
    || (ty.LongT? && t.Long?)
    || (ty.BoolT? && t.Bool?)
    || (ty.AtomT? && t.Atom?)
    || (ty.VarT? && t.Var?)
    || (ty.StringT? && (t.Str? || t == List([])))
    || (ty.BinaryT? && t.Binary?)
    || (ty.PidT? && t.Pid?)
    || (ty.RefT? && t.Ref?)
    || (ty.TupleT? && t.Tuple?)
    || (ty.ListT? && t.List?)
  }

  /** Under `s` the pattern `p` stands for `t`; `_` stands for anything. */
  ghost predicate Instance(t: Term, p: Term, s: Bindings) {
    match p
    case Var(n, ty) => n == [95] || (n in s && s[n] == t && Takes(ty, t))
    case Tuple(ps) => t.Tuple? && |t.elems| == |ps| && forall i | 0 <= i < |ps| :: Instance(t.elems[i], ps[i], s)
    case List(ps) => t.List? && |t.elems| == |ps| && forall i | 0 <= i < |ps| :: Instance(t.elems[i], ps[i], s)
    case _ => t == p
  }

  ghost predicate InstanceAll(ts: seq<Term>, ps: seq<Term>, s: Bindings)
    requires |ts| == |ps|
  {
    forall i | 0 <= i < |ps| :: Instance(ts[i], ps[i], s)
  }

  /** The variables of `p` other than `_`. */
  ghost function Named(p: Term): set<Name>
    decreases p, 0
  {
    match p
    case Var(n, _) => if IsAny(p) then {} else {n}
    case Tuple(ps) => NamedIn(ps)
    case List(ps) => NamedIn(ps)
    case _ => {}
  }

  ghost function NamedIn(ps: seq<Term>): set<Name>
    decreases ps, 1
  {
    if ps == [] then {} else Named(ps[0]) + NamedIn(ps[1..])
  }

  /** `_` does not occur in `p`. */
  ghost predicate NoWildcard(p: Term) {
    match p
    case Var(_, _) => !IsAny(p)
    case Tuple(ps) => forall q | q in ps :: NoWildcard(q)
    case List(ps) => forall q | q in ps :: NoWildcard(q)
    case _ => true
  }

  /** Among ground terms matching is `operator==`, and binds nothing. */
  lemma {:induction false} GroundMatch(t: Term, p: Term, b: Bindings)
    requires Ground(t) && Ground(p) && GroundBindings(b)
    ensures Match(t, p, b) == if Equal(t, p) then Bound(b) else NoMatch
    decreases t, 0
  {
    if ((t.Tuple? && p.Tuple?) || (t.List? && p.List?)) && |t.elems| == |p.elems| {
      GroundMatchAll(t.elems, p.elems, b);
    }
  }

  lemma {:induction false} GroundMatchAll(ts: seq<Term>, ps: seq<Term>, b: Bindings)
    requires AllGround(ts) && AllGround(ps) && GroundBindings(b) && |ts| == |ps|
    ensures MatchAll(ts, ps, b) ==
            if forall i | 0 <= i < |ts| :: Equal(ts[i], ps[i]) then Bound(b) else NoMatch
    decreases ts, 1
  {
    if ts != [] {
      GroundMatch(ts[0], ps[0], b);
      GroundMatchAll(ts[1..], ps[1..], b);
      assert forall i | 1 <= i < |ts| :: ts[i] == ts[1..][i - 1] && ps[i] == ps[1..][i - 1];
    }
  }

  lemma {:induction false} InstanceGrows(t: Term, p: Term, b: Bindings, s: Bindings)
    requires Instance(t, p, b) && Extends(s, b)
    ensures Instance(t, p, s)
    decreases p
  {
    if p.Tuple? || p.List? {
      forall i | 0 <= i < |p.elems| ensures Instance(t.elems[i], p.elems[i], s) {
        InstanceGrows(t.elems[i], p.elems[i], b, s);
      }
    }
  }

  lemma {:induction false} InstanceAllSplits(ts: seq<Term>, ps: seq<Term>, s: Bindings)
    requires |ts| == |ps| > 0
    ensures InstanceAll(ts, ps, s) <==> Instance(ts[0], ps[0], s) && InstanceAll(ts[1..], ps[1..], s)
  {
    if Instance(ts[0], ps[0], s) && InstanceAll(ts[1..], ps[1..], s) {
      forall i | 0 <= i < |ps| ensures Instance(ts[i], ps[i], s) {
        if i > 0 { assert Instance(ts[1..][i - 1], ps[1..][i - 1], s); }
      }
    }
  }

  /** A variable matched against a value either is bound to it already or becomes so. */
  lemma MatchVariable(t: Term, p: Term, b: Bindings)
    requires p.Var? && !IsAny(p) && Value(t) && ValueBindings(b)
    ensures Match(t, p, b) ==
            if !Takes(p.ty, t) || (p.name in b && b[p.name] != t) then NoMatch
            else Bound(b[p.name := t])
  {
    var n := p.name;
    if n in b {
      GroundMatch(b[n], t, b);
      EqualIsIdentity(b[n], t);
      if b[n] == t { assert b[n := t] == b; }
    } else {
      ApplyToGround(t, b);
    }
  }

  /**
   * Soundness. A match of a ground term never throws; on success the bindings only
   * grew, hold values, gained exactly the named variables of the pattern, and make
   * the pattern stand for the term.
   */
  lemma {:induction false} MatchSound(t: Term, p: Term, b: Bindings)
    requires Value(t) && NulFree(p) && ValueBindings(b)
    ensures !Match(t, p, b).Unbound?
    ensures Match(t, p, b).Bound? ==>
              var b' := Match(t, p, b).bindings;
              && Extends(b', b) && ValueBindings(b') && b'.Keys == b.Keys + Named(p)
              && Instance(t, p, b')
    decreases p, 0
  {
    match p
    case Tuple(ps) =>
      EqualIsIdentity(t, p);
      if t.Tuple? && |t.elems| == |ps| { MatchAllSound(t.elems, ps, b); }
    case List(ps) =>
      EqualIsIdentity(t, p);
      if t.List? && |t.elems| == |ps| { MatchAllSound(t.elems, ps, b); }
    case _ => MatchLeafSound(t, p, b);
  }

  lemma MatchLeafSound(t: Term, p: Term, b: Bindings)
    requires Value(t) && NulFree(p) && ValueBindings(b) && !p.Tuple? && !p.List?
    ensures !Match(t, p, b).Unbound?
    ensures Match(t, p, b).Bound? ==>
              var b' := Match(t, p, b).bindings;
              && Extends(b', b) && ValueBindings(b') && b'.Keys == b.Keys + Named(p)
              && Instance(t, p, b')
  {
    if p.Var? {
      if !IsAny(p) { MatchVariable(t, p, b); }
    } else {
      EqualIsIdentity(t, p);
    }
  }

  lemma {:induction false} MatchAllSound(ts: seq<Term>, ps: seq<Term>, b: Bindings)
    requires |ts| == |ps|
    requires AllGround(ts) && AllNulFree(ts) && AllNulFree(ps) && ValueBindings(b)
    ensures !MatchAll(ts, ps, b).Unbound?
    ensures MatchAll(ts, ps, b).Bound? ==>
              var b' := MatchAll(ts, ps, b).bindings;
              && Extends(b', b) && ValueBindings(b') && b'.Keys == b.Keys + NamedIn(ps)
              && InstanceAll(ts, ps, b')
    decreases ps, 1
  {
    if ts != [] {
      MatchSound(ts[0], ps[0], b);
      var r := Match(ts[0], ps[0], b);
      if r.Bound? {
        MatchAllSound(ts[1..], ps[1..], r.bindings);
        var r' := MatchAll(ts[1..], ps[1..], r.bindings);
        if r'.Bound? {
          InstanceGrows(ts[0], ps[0], r.bindings, r'.bindings);
          InstanceAllSplits(ts, ps, r'.bindings);
        }
      }
    }
  }

  /**
   * Completeness and leastness. If any extension `s` of `b` makes the pattern stand
   * for the term, the match succeeds and its result is contained in `s`.
   */
  lemma {:induction false} MatchLeast(t: Term, p: Term, b: Bindings, s: Bindings)
    requires Value(t) && NulFree(p) && ValueBindings(b)
    requires Extends(s, b) && Instance(t, p, s)
    ensures Match(t, p, b).Bound? && Extends(s, Match(t, p, b).bindings)
    decreases p, 0
  {
    match p
    case Var(n, _) =>
      if !IsAny(p) { MatchVariable(t, p, b); }
    case Tuple(ps) => MatchAllLeast(t.elems, ps, b, s);
    case List(ps) => MatchAllLeast(t.elems, ps, b, s);
    case _ => EqualIsIdentity(t, p);
  }

  lemma {:induction false} MatchAllLeast(ts: seq<Term>, ps: seq<Term>, b: Bindings, s: Bindings)
    requires |ts| == |ps|
    requires AllGround(ts) && AllNulFree(ts) && AllNulFree(ps) && ValueBindings(b)
    requires Extends(s, b) && InstanceAll(ts, ps, s)
    ensures MatchAll(ts, ps, b).Bound? && Extends(s, MatchAll(ts, ps, b).bindings)
    decreases ps, 1
  {
    if ts != [] {
      InstanceAllSplits(ts, ps, s);
      MatchLeast(ts[0], ps[0], b, s);
      MatchSound(ts[0], ps[0], b);
      MatchAllLeast(ts[1..], ps[1..], Match(ts[0], ps[0], b).bindings, s);
    }
  }

  /**
   * Without `_`, "stands for" is substitution: the pattern is an instance exactly when
   * `subst` resolves every variable and leaves the term behind.
   */
  lemma {:induction false} InstanceIsSubstitution(t: Term, p: Term, s: Bindings)
    requires NoWildcard(p)
    ensures Instance(t, p, s) <==> Substituted(p, s) == Some(t)
  {
    InstanceIsApply(t, p, s);
    if Ground(p) { ApplyToGround(p, s); }
  }

  lemma {:induction false} InstanceIsApply(t: Term, p: Term, s: Bindings)
    requires NoWildcard(p)
    ensures Instance(t, p, s) <==> FirstUnbound(p, s).None? && Apply(p, s) == t
    decreases p
  {
    if p.Tuple? || p.List? {
      var ps := p.elems;
      var qs := ApplyAll(ps, s);
      if TypeOf(t) == TypeOf(p) && |t.elems| == |ps| {
        forall i | 0 <= i < |ps|
          ensures Instance(t.elems[i], ps[i], s) <==>
                  FirstUnbound(ps[i], s).None? && qs[i] == t.elems[i]
        {
          InstanceIsApply(t.elems[i], ps[i], s);
        }
      }
      if Instance(t, p, s) {
        AllResolved(ps, s);
        assert t.elems == qs;
      } else if FirstUnbound(p, s).None? && Apply(p, s) == t {
        forall i | 0 <= i < |ps| ensures Instance(t.elems[i], ps[i], s) {
          ResolvedElement(ps, s, i);
        }
      }
    }
  }

  /**
   * The law of matching, for every ground term and every pattern (variables may repeat
   * and carry types): it never throws, it succeeds exactly when some extension of the
   * starting bindings makes the pattern stand for the term, and the bindings it leaves
   * are the least such extension, bound on exactly the old names and the pattern's.
   */
  lemma MatchIsLeastInstance(t: Term, p: Term, b: Bindings)
    requires Value(t) && NulFree(p) && ValueBindings(b)
    ensures !Match(t, p, b).Unbound?
    ensures Match(t, p, b).Bound? <==> exists s :: Extends(s, b) && Instance(t, p, s)
    ensures Match(t, p, b).Bound? ==>
              var b' := Match(t, p, b).bindings;
              && Extends(b', b) && ValueBindings(b') && b'.Keys == b.Keys + Named(p)
              && Instance(t, p, b')
              && (NoWildcard(p) ==> Substituted(p, b') == Some(t))
              && forall s | Extends(s, b) && Instance(t, p, s) :: Extends(s, b')
  {
    MatchSound(t, p, b);
    forall s | Extends(s, b) && Instance(t, p, s)
      ensures Match(t, p, b).Bound? && Extends(s, Match(t, p, b).bindings)
    {
      MatchLeast(t, p, b, s);
    }
    if Match(t, p, b).Bound? && NoWildcard(p) {
      InstanceIsSubstitution(t, p, Match(t, p, b).bindings);
    }
  }

  /** Matching a ground term gives the same answer and bindings from either side. */
  lemma {:induction false} MatchOrientation(t: Term, p: Term, b: Bindings)
    requires Ground(t) && GroundBindings(b)
    ensures Match(t, p, b) == Match(p, t, b)
    decreases t, 0
  {
    EqualSymmetric(t, p);
    if ((t.Tuple? && p.Tuple?) || (t.List? && p.List?)) && |t.elems| == |p.elems| {
      MatchAllOrientation(t.elems, p.elems, b);
    }
  }

  lemma {:induction false} MatchAllOrientation(ts: seq<Term>, ps: seq<Term>, b: Bindings)
    requires AllGround(ts) && GroundBindings(b) && |ts| == |ps|
    ensures MatchAll(ts, ps, b) == MatchAll(ps, ts, b)
    decreases ts, 1
  {
    if ts != [] {
      MatchOrientation(ts[0], ps[0], b);
      if Match(ts[0], ps[0], b).Bound? {
        MatchAllOrientation(ts[1..], ps[1..], Match(ts[0], ps[0], b).bindings);
      }
    }
  }

  /** Two values match exactly when they are the same value. */
  lemma ValuesMatchIffEqual(t: Term, p: Term, b: Bindings)
    requires Value(t) && Value(p) && GroundBindings(b)
    ensures Match(t, p, b) == if t == p then Bound(b) else NoMatch
  {
    GroundMatch(t, p, b);
    EqualIsIdentity(t, p);
  }
}
