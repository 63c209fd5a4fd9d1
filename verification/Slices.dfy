/** Reasoning about sequences, and about what a byte sequence holds at a position. */
module Slices {
  import opened Terms

  /** `s` holds `w` at position `i`. */
  predicate Matches(s: seq<Byte>, i: nat, w: seq<Byte>) {
    i + |w| <= |s| && forall k | 0 <= k < |w| :: s[i + k] == w[k]
  }

  lemma MatchesParts(s: seq<Byte>, i: nat, u: seq<Byte>, v: seq<Byte>)
    requires Matches(s, i, u + v)
    ensures Matches(s, i, u) && Matches(s, i + |u|, v)
  {
    var w := u + v;
    assert forall k | 0 <= k < |u| :: u[k] == w[k];
    assert forall k | 0 <= k < |v| :: v[k] == w[|u| + k];
  }

  lemma ThreeParts(s: seq<Byte>, i: nat, u: seq<Byte>, v: seq<Byte>, w: seq<Byte>)
    requires Matches(s, i, u + v + w)
    ensures Matches(s, i, u) && Matches(s, i + |u|, v) && Matches(s, i + |u| + |v|, w)
  {
    MatchesParts(s, i, u + v, w);
    MatchesParts(s, i, u, v);
  }

  lemma FourParts(s: seq<Byte>, i: nat, t: seq<Byte>, u: seq<Byte>, v: seq<Byte>, w: seq<Byte>)
    requires Matches(s, i, t + u + v + w)
    ensures var j := i + |t|;
            && Matches(s, i, t) && Matches(s, j, u)
            && Matches(s, j + |u|, v) && Matches(s, j + |u| + |v|, w)
  {
    MatchesParts(s, i, t + u + v, w);
    ThreeParts(s, i, t, u, v);
  }

  lemma MatchesSlice(s: seq<Byte>, i: nat, w: seq<Byte>)
    requires Matches(s, i, w)
    ensures s[i..i + |w|] == w
  {
    assert forall k | 0 <= k < |w| :: s[i..i + |w|][k] == s[i + k] == w[k];
  }

  lemma MatchesAt(s: seq<Byte>, i: nat, w: seq<Byte>, k: nat)
    requires Matches(s, i, w) && k < |w|
    ensures s[i + k] == w[k]
  {
  }

  lemma MatchesPair(s: seq<Byte>, i: nat, a: Byte, b: Byte)
    requires Matches(s, i, [a, b])
    ensures s[i] == a && s[i + 1] == b
  {
    MatchesAt(s, i, [a, b], 0);
    MatchesAt(s, i, [a, b], 1);
  }

  lemma MatchesPrefix(s: seq<Byte>, w: seq<Byte>)
    requires w <= s
    ensures Matches(s, 0, w)
  {
  }

  ghost predicate Distinct<T>(s: seq<T>) {
    forall i, j | 0 <= i < j < |s| :: s[i] != s[j]
  }

  lemma OneMore<T>(acc: seq<T>, all: seq<T>)
    requires all != []
    ensures acc + all == (acc + [all[0]]) + all[1..]
  {
  }

  lemma Associative<T>(a: seq<T>, b: seq<T>, c: seq<T>)
    ensures (a + b) + c == a + (b + c)
  {
  }
}
