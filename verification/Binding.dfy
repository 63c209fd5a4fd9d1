/**
 * The mutable side of substitution and matching: `varbind`, the `subst` loops, and
 * `eterm::match`, which works on a private copy of the caller's bindings at every
 * nesting level and merges it back only on success.
 */
module Binding {
  import opened Terms
  import opened Matching

  class Varbind {
    var terms: Bindings

    constructor ()
      ensures terms == map[]
    {
      terms := map[];
    }

    method Copy(rhs: Varbind)
      modifies this
      ensures terms == old(rhs.terms)
    {
      terms := rhs.terms;
    }

    /** Binds only a name that is still unbound. */
    method Bind(name: Name, term: Term)
      modifies this
      ensures terms == map[name := term] + old(terms)
    {
      if name !in terms {
        terms := terms[name := term];
      }
    }

    method Find(name: Name) returns (r: Option<Term>)
      ensures r.Some? <==> name in terms
      ensures r.Some? ==> r.value == terms[name]
    {
      r := if name in terms then Some(terms[name]) else None;
    }

    /** Adds every pair of `rhs` whose name is unbound here. */
    method Merge(rhs: Varbind)
      requires rhs != this
      modifies this
      ensures terms == rhs.terms + old(terms)
    {
      var todo := rhs.terms.Keys;
      while todo != {}
        invariant todo <= rhs.terms.Keys
        invariant terms == (rhs.terms - todo) + old(terms)
        decreases |todo|
      {
        var name :| name in todo;
        Bind(name, rhs.terms[name]);
        todo := todo - {name};
      }
    }
  }

  ghost function TermsOf(binding: Varbind?): Bindings
    reads binding
  {
    if binding == null then map[] else binding.terms
  }

  // ----- subst -----

  method Subst(t: Term, binding: Varbind?) returns (r: SubstResult)
    ensures r == SubstOf(t, TermsOf(binding))
    decreases t, 1
  {
    match t
    case Var(_, _) => r := SubstVar(t, binding);
    case Tuple(_) => r := SubstTuple(t, binding);
    case List(_) => r := SubstList(t, binding);
    case _ => r := Unchanged;
  }

  method SubstVar(v: Term, binding: Varbind?) returns (r: SubstResult)
    requires v.Var?
    ensures r == SubstOf(v, TermsOf(binding))
  {
    var term := None;
    if binding != null {
      term := binding.Find(v.name);
    }
    if term.None? || !CheckType(v, term.value) {
      r := Throws(v.name);
    } else {
      r := Changed(term.value);
    }
  }

  method SubstTuple(t: Term, binding: Varbind?) returns (r: SubstResult)
    requires t.Tuple?
    ensures r == SubstOf(t, TermsOf(binding))
    decreases t, 0
  {
    var changed, elems, thrown := SubstElements(t.elems, binding);
    if thrown.Some? {
      r := Throws(thrown.value);
    } else if !changed {
      r := Unchanged;
    } else {
      r := Changed(Tuple(elems));
    }
  }

  method SubstList(t: Term, binding: Varbind?) returns (r: SubstResult)
    requires t.List?
    ensures r == SubstOf(t, TermsOf(binding))
    decreases t, 0
  {
    if |t.elems| == 0 {
      assert FirstUnbound(t, TermsOf(binding)).None? && Ground(t);
      return Unchanged;
    }
    var changed, elems, thrown := SubstElements(t.elems, binding);
    if thrown.Some? {
      r := Throws(thrown.value);
    } else if !changed {
      r := Unchanged;
    } else {
      r := Changed(List(elems));
    }
  }

  /** The loop that tuples and lists share: push each element, changed or not. */
  method SubstElements(ts: seq<Term>, binding: Varbind?)
      returns (changed: bool, elems: seq<Term>, thrown: Option<Name>)
    ensures thrown == FirstUnboundIn(ts, TermsOf(binding))
    ensures thrown.None? ==> changed == !AllGround(ts)
    ensures thrown.None? ==> elems == ApplyAll(ts, TermsOf(binding))
    decreases ts, 2
  {
    ghost var b := TermsOf(binding);
    changed, elems, thrown := false, [], None;
    for i := 0 to |ts|
      invariant FirstUnboundIn(ts, b) == FirstUnboundIn(ts[i..], b)
      invariant changed == !AllGround(ts[..i])
      invariant |elems| == i && forall j | 0 <= j < i :: elems[j] == Apply(ts[j], b)
    {
      var e := Subst(ts[i], binding);
      ApplyToGroundIf(ts[i], b);
      assert ts[..i + 1] == ts[..i] + [ts[i]];
      if e.Throws? {
        thrown := Some(e.name);
        return;
      } else if e.Unchanged? {
        elems := elems + [ts[i]];
      } else {
        changed := true;
        elems := elems + [e.term];
      }
    }
    assert ts[..|ts|] == ts && elems == ApplyAll(ts, b);
  }

  lemma ApplyToGroundIf(t: Term, b: Bindings)
    ensures Ground(t) ==> FirstUnbound(t, b).None? && Apply(t, b) == t
  {
    if Ground(t) { ApplyToGround(t, b); }
  }

  // ----- match -----

  /** What the caller of `match` sees, besides its bindings. */
  datatype Answer = Yes | No | Thrown(name: Name)

  function AnswerOf(r: Outcome): Answer {
    match r
    case Bound(_) => Yes
    case NoMatch => No
    case Unbound(n) => Thrown(n)
  }

  lemma {:induction false} ElementIsSmaller(ts: seq<Term>, i: nat)
    requires i < |ts|
    ensures Size(ts[i]) <= SizeAll(ts) && Vars(ts[i]) <= VarsAll(ts)
  {
    if i > 0 { ElementIsSmaller(ts[1..], i - 1); }
  }

  /**
   * `eterm::match`. The caller's bindings become the single-pass result on success and
   * are left alone on failure and on an exception, however deep either happened.
   */
  method MatchTerm(t: Term, p: Term, binding: Varbind?) returns (r: Answer)
    requires GroundBindings(TermsOf(binding))
    modifies binding
    ensures r == AnswerOf(Match(t, p, old(TermsOf(binding))))
    ensures r.Yes? && binding != null ==> binding.terms == Match(t, p, old(TermsOf(binding))).bindings
    ensures !r.Yes? ==> TermsOf(binding) == old(TermsOf(binding))
    decreases Vars(t) + Vars(p), Size(t) + Size(p), if t.Var? then 0 else 1, 2
  {
    var dirty := new Varbind();
    if binding == null {
      r := Visit(t, p, dirty);
    } else {
      dirty.Copy(binding);
      r := Visit(t, p, dirty);
      if r.Yes? {
        binding.Merge(dirty);
      }
    }
  }

  method Visit(t: Term, p: Term, dirty: Varbind) returns (r: Answer)
    requires GroundBindings(dirty.terms)
    modifies dirty
    ensures r == AnswerOf(Match(t, p, old(dirty.terms)))
    ensures r.Yes? ==> dirty.terms == Match(t, p, old(dirty.terms)).bindings
    decreases Vars(t) + Vars(p), Size(t) + Size(p), if t.Var? then 0 else 1, 1
  {
    match t
    case Var(_, _) =>
      r := MatchVar(t, p, dirty);
    case Tuple(es) =>
      if p.Var? {
        r := MatchTerm(p, t, dirty);
      } else if !p.Tuple? || |es| != |p.elems| {
        r := No;
      } else {
        r := MatchElements(es, p.elems, dirty);
      }
    case List(es) =>
      if p.Var? {
        r := MatchTerm(p, t, dirty);
      } else if !p.List? || |es| != |p.elems| {
        r := No;
      } else {
        r := MatchElements(es, p.elems, dirty);
      }
    case _ =>
      if p.Var? {
        r := MatchTerm(p, t, dirty);
      } else {
        r := if Equal(t, p) then Yes else No;
      }
  }

  method MatchVar(v: Term, p: Term, dirty: Varbind) returns (r: Answer)
    requires v.Var? && GroundBindings(dirty.terms)
    modifies dirty
    ensures r == AnswerOf(Match(v, p, old(dirty.terms)))
    ensures r.Yes? ==> dirty.terms == Match(v, p, old(dirty.terms)).bindings
    decreases Vars(v) + Vars(p), Size(v) + Size(p), 0, 0
  {
    if IsAny(v) {
      return Yes;
    }
    var value := dirty.Find(v.name);
    if value.Some? {
      if !CheckType(v, value.value) {
        return No;
      }
      GroundHasNoVars(value.value);
      r := MatchTerm(value.value, p, dirty);
      return;
    }
    if !CheckType(v, p) {
      return No;
    }
    var s := Subst(p, dirty);
    match s
    case Throws(n) => r := Thrown(n);
    case Unchanged => dirty.Bind(v.name, p); r := Yes;
    case Changed(u) => dirty.Bind(v.name, u); r := Yes;
  }

  method MatchElements(ts: seq<Term>, ps: seq<Term>, dirty: Varbind) returns (r: Answer)
    requires |ts| == |ps| && GroundBindings(dirty.terms)
    modifies dirty
    ensures r == AnswerOf(MatchAll(ts, ps, old(dirty.terms)))
    ensures r.Yes? ==> dirty.terms == MatchAll(ts, ps, old(dirty.terms)).bindings
    decreases VarsAll(ts) + VarsAll(ps), SizeAll(ts) + SizeAll(ps), 2, 0
  {
    ghost var b := dirty.terms;
    for i := 0 to |ts|
      invariant GroundBindings(dirty.terms)
      invariant MatchAll(ts, ps, b) == MatchAll(ts[i..], ps[i..], dirty.terms)
    {
      ElementIsSmaller(ts, i);
      ElementIsSmaller(ps, i);
      r := MatchTerm(ts[i], ps[i], dirty);
      if !r.Yes? {
        return;
      }
      assert ts[i..][1..] == ts[i + 1..] && ps[i..][1..] == ps[i + 1..];
    }
    r := Yes;
  }
}
