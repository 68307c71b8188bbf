/** Breaker names: the normaliser that maps free-form breaker text to one of
    five canonical names, and the loose family test the matcher applies to
    upper-cased names. */
module Breakers {
  import opened Text

  const Emax62: string := "ABB SACE Emax 6.2"
  const Emax42: string := "ABB SACE Emax 4.2"
  const Emax22: string := "ABB SACE Emax 2.2"
  const Tmax: string := "ABB SACE Tmax"
  const SquareD: string := "Square D"

  predicate IsCanonical(b: string) {
    b == Emax62 || b == Emax42 || b == Emax22 || b == Tmax || b == SquareD
  }

  /** `_normalize_breaker_type`: the first rule whose literal occurs in the
      upper-cased text decides; text matching no rule is returned as given. */
  function NormalizeBreakerType(b: string): (r: string)
    ensures b == "" <==> r == ""
    ensures IsCanonical(r) || r == b
    ensures var u := Upper(b);
      && (Names62(u) ==> r == Emax62)
      && (!Names62(u) && Names42(u) ==> r == Emax42)
      && (!Names62(u) && !Names42(u) && Names22(u) ==> r == Emax22)
      && (!Names62(u) && !Names42(u) && !Names22(u) && Contains(u, "TMAX") ==> r == Tmax)
      && (!Names62(u) && !Names42(u) && !Names22(u) && !Contains(u, "TMAX") && Contains(u, "SQUARE D") ==> r == SquareD)
      && (!Names62(u) && !Names42(u) && !Names22(u) && !Contains(u, "TMAX") && !Contains(u, "SQUARE D") ==> r == b)
  {
    if b == "" then ""
    else
      var u := Upper(b);
      if Names62(u) then Emax62
      else if Names42(u) then Emax42
      else if Names22(u) then Emax22
      else if Contains(u, "TMAX") then Tmax
      else if Contains(u, "SQUARE D") then SquareD
      else b
  }

  /** The long and short spellings of each Emax model in upper-cased text. */
  predicate Names62(u: string) { Contains(u, "EMAX 6.2") || Contains(u, "E6.2") }
  predicate Names42(u: string) { Contains(u, "EMAX 4.2") || Contains(u, "E4.2") }
  predicate Names22(u: string) { Contains(u, "EMAX 2.2") || Contains(u, "E2.2") }

  /** Every canonical name normalises to itself. */
  lemma CanonicalIsFixed(c: string)
    requires IsCanonical(c)
    ensures NormalizeBreakerType(c) == c
  {
    if c == Emax62 { Emax62IsFixed(); }
    else if c == Emax42 { Emax42IsFixed(); }
    else if c == Emax22 { Emax22IsFixed(); }
    else if c == Tmax { TmaxIsFixed(); }
    else { SquareDIsFixed(); }
  }

  lemma Emax62IsFixed()
    ensures NormalizeBreakerType(Emax62) == Emax62
  {
    assert Upper(Emax62) == "ABB SACE EMAX 6.2";
    assert OccursAt("ABB SACE EMAX 6.2", "EMAX 6.2", 9);
  }

  lemma Emax42IsFixed()
    ensures NormalizeBreakerType(Emax42) == Emax42
  {
    var u := Upper(Emax42);
    assert u == "ABB SACE EMAX 4.2";
    assert '6' !in u;
    MissingCharNotContained(u, "EMAX 6.2", 5);
    MissingCharNotContained(u, "E6.2", 1);
    assert OccursAt(u, "EMAX 4.2", 9);
  }

  lemma Emax22IsFixed()
    ensures NormalizeBreakerType(Emax22) == Emax22
  {
    var u := Upper(Emax22);
    assert u == "ABB SACE EMAX 2.2";
    assert '6' !in u && '4' !in u;
    MissingCharNotContained(u, "EMAX 6.2", 5);
    MissingCharNotContained(u, "E6.2", 1);
    MissingCharNotContained(u, "EMAX 4.2", 5);
    MissingCharNotContained(u, "E4.2", 1);
    assert OccursAt(u, "EMAX 2.2", 9);
  }

  lemma TmaxIsFixed()
    ensures NormalizeBreakerType(Tmax) == Tmax
  {
    var u := Upper(Tmax);
    assert u == "ABB SACE TMAX";
    NoModelNumber(u);
    assert OccursAt(u, "TMAX", 9);
  }

  lemma SquareDIsFixed()
    ensures NormalizeBreakerType(SquareD) == SquareD
  {
    var u := Upper(SquareD);
    assert u == "SQUARE D";
    NoModelNumber(u);
    assert 'T' !in u;
    MissingCharNotContained(u, "TMAX", 0);
    assert OccursAt(u, "SQUARE D", 0);
  }

  /** A text without the digits 6, 4 and 2 matches none of the Emax rules. */
  lemma NoModelNumber(u: string)
    requires '6' !in u && '4' !in u && '2' !in u
    ensures !Contains(u, "EMAX 6.2") && !Contains(u, "E6.2")
    ensures !Contains(u, "EMAX 4.2") && !Contains(u, "E4.2")
    ensures !Contains(u, "EMAX 2.2") && !Contains(u, "E2.2")
  {
    MissingCharNotContained(u, "EMAX 6.2", 5);
    MissingCharNotContained(u, "E6.2", 1);
    MissingCharNotContained(u, "EMAX 4.2", 5);
    MissingCharNotContained(u, "E4.2", 1);
    MissingCharNotContained(u, "EMAX 2.2", 7);
    MissingCharNotContained(u, "E2.2", 1);
  }

  /** Normalising twice is normalising once. */
  lemma NormalizeIdempotent(b: string)
    ensures NormalizeBreakerType(NormalizeBreakerType(b)) == NormalizeBreakerType(b)
  {
    var r := NormalizeBreakerType(b);
    if IsCanonical(r) {
      CanonicalIsFixed(r);
    }
  }

  /** `_breaker_compatible`: equal names, or both names carry the whole
      tokens ABB and EMAX, or ABB and TMAX, or both carry SQUARE. */
  predicate BreakerCompatible(a: string, b: string)
    ensures a == b ==> BreakerCompatible(a, b)
    ensures BreakerCompatible(a, b) && a != b ==>
      (HasToken(a, "ABB") && HasToken(b, "ABB")) || (HasToken(a, "SQUARE") && HasToken(b, "SQUARE"))
  {
    || a == b
    || (&& HasToken(a, "ABB") && HasToken(b, "ABB")
        && ((HasToken(a, "EMAX") && HasToken(b, "EMAX")) || (HasToken(a, "TMAX") && HasToken(b, "TMAX"))))
    || (HasToken(a, "SQUARE") && HasToken(b, "SQUARE"))
  }

  /** The family test is reflexive and symmetric. */
  lemma CompatibleReflexiveSymmetric(a: string, b: string)
    ensures BreakerCompatible(a, a)
    ensures BreakerCompatible(a, b) == BreakerCompatible(b, a)
  {
  }

  /** The product family a canonical name belongs to. */
  function Family(c: string): string
    requires IsCanonical(c)
  {
    if c == Tmax then "TMAX" else if c == SquareD then "SQUARE" else "EMAX"
  }

  /** Which family tokens each upper-cased canonical name carries. */
  lemma CanonicalTokens(c: string)
    requires IsCanonical(c)
    ensures HasToken(Upper(c), "ABB") <==> c != SquareD
    ensures HasToken(Upper(c), "EMAX") <==> Family(c) == "EMAX"
    ensures HasToken(Upper(c), "TMAX") <==> Family(c) == "TMAX"
    ensures HasToken(Upper(c), "SQUARE") <==> Family(c) == "SQUARE"
  {
    if c == SquareD { SquareDTokens(); }
    else if c == Tmax { TmaxTokens(); }
    else if c == Emax62 { assert Upper(c) == "ABB SACE EMAX 6.2"; EmaxTokens(Upper(c)); }
    else if c == Emax42 { assert Upper(c) == "ABB SACE EMAX 4.2"; EmaxTokens(Upper(c)); }
    else { assert Upper(c) == "ABB SACE EMAX 2.2"; EmaxTokens(Upper(c)); }
  }

  lemma SquareDTokens()
    ensures var u := Upper(SquareD);
      !HasToken(u, "ABB") && !HasToken(u, "EMAX") && !HasToken(u, "TMAX") && HasToken(u, "SQUARE")
  {
    var u := Upper(SquareD);
    assert u == "SQUARE D";
    assert TokenAt(u, "SQUARE", 0);
    assert 'B' !in u && 'M' !in u;
    MissingCharNoToken(u, "ABB", 1);
    MissingCharNoToken(u, "EMAX", 1);
    MissingCharNoToken(u, "TMAX", 1);
  }

  lemma TmaxTokens()
    ensures var u := Upper(Tmax);
      HasToken(u, "ABB") && !HasToken(u, "EMAX") && HasToken(u, "TMAX") && !HasToken(u, "SQUARE")
  {
    var u := Upper(Tmax);
    assert u == "ABB SACE TMAX";
    assert TokenAt(u, "ABB", 0);
    assert TokenAt(u, "TMAX", 9);
    assert 'Q' !in u;
    MissingCharNoToken(u, "SQUARE", 1);
    NoEmaxTokenInTmax();
  }

  /** The three Emax names, upper-cased, differ only in the model number. */
  lemma EmaxTokens(u: string)
    requires u == "ABB SACE EMAX 6.2" || u == "ABB SACE EMAX 4.2" || u == "ABB SACE EMAX 2.2"
    ensures HasToken(u, "ABB") && HasToken(u, "EMAX") && !HasToken(u, "TMAX") && !HasToken(u, "SQUARE")
  {
    assert TokenAt(u, "ABB", 0);
    assert TokenAt(u, "EMAX", 9);
    assert 'T' !in u && 'Q' !in u;
    MissingCharNoToken(u, "TMAX", 0);
    MissingCharNoToken(u, "SQUARE", 1);
  }

  /** EMAX and TMAX share three letters, so the Tmax name is checked
      position by position. */
  lemma NoEmaxTokenInTmax()
    ensures !HasToken("ABB SACE TMAX", "EMAX")
  {
    var u := "ABB SACE TMAX";
    forall i | TokenAt(u, "EMAX", i) ensures false {
      OccursCharAt(u, "EMAX", i, 0);
      OccursCharAt(u, "EMAX", i, 1);
    }
  }

  /** On upper-cased canonical names the loose test is exactly "same
      family": Emax 6.2, 4.2 and 2.2 accept one another, Tmax and Square D
      only themselves. */
  lemma CompatibleIffSameFamily(c: string, d: string)
    requires IsCanonical(c) && IsCanonical(d)
    ensures BreakerCompatible(Upper(c), Upper(d)) <==> Family(c) == Family(d)
  {
    CanonicalTokens(c);
    CanonicalTokens(d);
  }
}
