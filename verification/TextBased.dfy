/**
 * Numbers with a base, such as `16#ff`: their value is right in every base, but the cursor
 * stops at the first digit that is not decimal.
 */
module TextBased {
  import opened Slices
  import opened Terms
  import opened Text
  import opened TextTokens
  import opened TextRoundTrip
  import opened TextForms

  predicate DigitsOf(w: Chars, base: nat) {
    w != [] && DigitsIn(w, base)
  }

  /** How many decimal digits the sequence starts with. */
  function DecimalPrefix(w: Chars): (n: nat)
    ensures n <= |w|
  {
    if w == [] || !(48 <= w[0] <= 57) then 0 else 1 + DecimalPrefix(w[1..])
  }

  lemma {:induction false} DecimalPrefixIsAll(w: Chars)
    ensures DecimalPrefix(w) == |w| <==> Decimal(w)
  {
    if w != [] {
      DecimalPrefixIsAll(w[1..]);
      assert forall k | 0 <= k < |w| - 1 :: w[1..][k] == w[k + 1];
      if Decimal(w) {
        assert IsDigit(w[0]);
      }
    }
  }

  function PrintBased(base: nat, w: Chars): Chars {
    PrintNat(base) + [35] + w
  }

  // ----- the value -----

  lemma DelimiterIsNoDigit(c: Byte, base: nat)
    requires Delimiter(c) && base <= 36
    ensures DigitOf(c) >= base
  {
  }

  lemma DigitsRead(s: Chars, j: nat, w: Chars, base: nat)
    requires 2 <= base <= 36 && DigitsOf(w, base) && Matches(s, j, w) && Delimiter(CharAt(s, j + |w|))
    ensures StrToL(s, j, base) == Saturated(ValueIn(w, base))
  {
    DelimiterIsNoDigit(CharAt(s, j + |w|), base);
    NoMark(s, j, w);
    SpacesStop(s, j, [], [], w);
    IntegerParts(s, j, [], j, w, base);
  }

  lemma NoMark(s: Chars, j: nat, w: Chars)
    requires |w| == 1 ==> Delimiter(CharAt(s, j + 1))
    ensures |w| == 1 ==> CharAt(s, j + 1) !in {120, 88}
  {
  }

  // ----- the base and the cursor -----

  lemma {:induction false} DigitsThenHash(s: Chars, n: Number, w: Chars)
    requires n.start <= n.p && Matches(s, n.p, w) && Decimal(w) && n.p + |w| <= |s|
    ensures ScanNumber(s, n) == ScanNumber(s, n.(p := n.p + |w|))
    decreases |w|
  {
    if w != [] {
      MatchesAt(s, n.p, w, 0);
      assert w == [w[0]] + w[1..];
      MatchesParts(s, n.p, [w[0]], w[1..]);
      DigitsThenHash(s, n.(p := n.p + 1), w[1..]);
    }
  }

  /** Behind the `#` only decimal digits move the cursor. */
  lemma {:induction false} ScanStopsAtLetter(s: Chars, n: Number, w: Chars, base: nat)
    requires base <= 36 && n.start <= n.p && Matches(s, n.p, w) && Delimiter(CharAt(s, n.p + |w|))
    requires DigitsIn(w, base)
    ensures ScanNumber(s, n) == n.(p := n.p + DecimalPrefix(w))
    decreases |w|
  {
    if w != [] {
      MatchesAt(s, n.p, w, 0);
      assert w == [w[0]] + w[1..];
      MatchesParts(s, n.p, [w[0]], w[1..]);
      if IsDigit(w[0]) {
        ScanStopsAtLetter(s, n.(p := n.p + 1), w[1..], base);
      }
    }
  }

  lemma BaseReads(s: Chars, i: nat, base: nat)
    requires 2 <= base <= 36 && Matches(s, i, PrintNat(base)) && CharAt(s, i + |PrintNat(base)|) == HASH
    ensures i < |s| && IsDigit(s[i]) && Wrap32(StrToL(s, i, 10)) == base
  {
    var w := PrintNat(base);
    MatchesAt(s, i, w, 0);
    assert w[0] in w;
    DigitsOfNat(s, i, base);
    StrToLDecimal(s, i);
  }

  lemma ScanBased(s: Chars, i: nat, u: Chars, base: nat, w: Chars, j: nat)
    requires 2 <= base <= 36 && DigitsOf(w, base)
    requires u != [] && (forall c | c in u :: IsDigit(c)) && Matches(s, i, u) && j == i + |u| + 1 <= |s|
    requires s[j - 1] == HASH && Wrap32(StrToL(s, i, 10)) == base
    requires Matches(s, j, w) && Delimiter(CharAt(s, j + |w|))
    ensures ScanNumber(s, Number(i + 1, i, 10, false)) == Number(j + DecimalPrefix(w), j, base, false)
  {
    BaseDigits(s, i, u);
    HashStep(s, i, j - 1, base);
    ScanStopsAtLetter(s, Number(j, j, base, false), w, base);
  }

  lemma BaseDigits(s: Chars, i: nat, u: Chars)
    requires u != [] && (forall c | c in u :: IsDigit(c)) && Matches(s, i, u)
    ensures ScanNumber(s, Number(i + 1, i, 10, false)) == ScanNumber(s, Number(i + |u|, i, 10, false))
  {
    assert u == [u[0]] + u[1..] && forall k | 0 <= k < |u[1..]| :: u[1..][k] in u;
    MatchesParts(s, i, [u[0]], u[1..]);
    DigitsThenHash(s, Number(i + 1, i, 10, false), u[1..]);
  }

  lemma HashStep(s: Chars, i: nat, p: nat, base: nat)
    requires i <= p < |s| && s[p] == HASH && Wrap32(StrToL(s, i, 10)) == base
    ensures ScanNumber(s, Number(p, i, 10, false)) == ScanNumber(s, Number(p + 1, p + 1, base, false))
  {
  }

  // ----- the theorems -----

  /** The value is right in every base, and the cursor is behind the leading decimal digits. */
  lemma BasedReads(s: Chars, i: nat, base: nat, w: Chars)
    requires 2 <= base <= 36 && DigitsOf(w, base)
    requires Matches(s, i, PrintBased(base, w)) && Delimiter(CharAt(s, i + |PrintBased(base, w)|))
    ensures var j := i + |PrintNat(base)| + 1;
      ParseSimple(s, i) == Ok(Long(Saturated(ValueIn(w, base))), j + DecimalPrefix(w))
  {
    var j := i + |PrintNat(base)| + 1;
    ThreeParts(s, i, PrintNat(base), [HASH], w);
    MatchesAt(s, j - 1, [HASH], 0);
    BaseReads(s, i, base);
    ScanBased(s, i, PrintNat(base), base, w, j);
    DigitsRead(s, j, w, base);
  }

  /** So a number with a base is read to its end iff all its digits are decimal. */
  lemma BasedReadsIff(s: Chars, base: nat, w: Chars)
    requires 2 <= base <= 36 && DigitsOf(w, base)
    requires LedBy(s, PrintBased(base, w))
    ensures ParseTerm(s, 0).Ok? && ParseTerm(s, 0).value == Long(Saturated(ValueIn(w, base)))
    ensures ParseTerm(s, 0).pos == |PrintBased(base, w)| <==> Decimal(w)
  {
    MatchesPrefix(s, PrintBased(base, w));
    BasedReads(s, 0, base, w);
    DecimalPrefixIsAll(w);
    BasedStarts(s, base, w);
    SimpleStart(s);
  }

  lemma BasedStarts(s: Chars, base: nat, w: Chars)
    requires PrintBased(base, w) <= s
    ensures s != [] && IsDigit(s[0])
  {
    assert PrintBased(base, w)[0] == PrintNat(base)[0] && PrintNat(base)[0] in PrintNat(base);
  }

  /** For example `16#ff`: 255, and the cursor before the first letter. */
  lemma SixteenFF()
    ensures ParseTerm([49, 54, HASH, 102, 102], 0).Ok?
    ensures ParseTerm([49, 54, HASH, 102, 102], 0).value == Long(255)
    ensures ParseTerm([49, 54, HASH, 102, 102], 0).pos < 5
  {
    var s: Chars := [49, 54, HASH, 102, 102];
    var w: Chars := [102, 102];
    assert PrintNat(16) == [49, 54] by { assert PrintNat(1) == [49]; }
    assert PrintBased(16, w) == s;
    assert w[..1] == [102] && ValueIn([102], 16) == 15 by { assert ValueIn([], 16) == 0; }
    assert ValueIn(w, 16) == 255;
    BasedReadsIff(s, 16, w);
    assert !IsDigit(w[0]);
  }
}
