/** Feature extraction: the canonical feature record built either from the
    first section of a structured quote or from free text typed by a user. */
module Features {
  import opened Optional
  import opened Text
  import opened Breakers

  /** The feature dict; None is Python's None. */
  datatype Features = Features(
    height: Option<string>,
    width: Option<string>,
    depth: Option<string>,
    breakerType: Option<string>,
    breakerQuantity: Option<int>,
    access: Option<string>,
    mount: Option<string>)

  const NoFeatures: Features := Features(None, None, None, None, None, None, None)

  /** Truthiness of an optional string: None and "" are false. */
  predicate Present(o: Option<string>) { o.Some? && o.value != "" }

  /** Truthiness of an optional quantity: None and 0 are false. */
  predicate QuantityPresent(q: Option<int>) { q.Some? && q.value != 0 }

  // ---------------------------------------------------------------------
  // Structured quote input

  /** A JSON scalar where the quote carries a dimension. */
  datatype Scalar = Null | Str(s: string) | Int(n: int)

  /** `dimensions`; a missing key reads as Str(""), the `dict.get` default. */
  datatype Dimensions = Dimensions(height: Scalar, width: Scalar, depth: Scalar)

  /** A breaker object; `breakerType` is None for a JSON null and Some("")
      for a missing 'type' key. */
  datatype BreakerInfo = BreakerInfo(breakerType: Option<string>)

  /** One quote section. `dimensions` is None when the value is not an
      object; `mainBreaker` is None when it is missing, null or an empty
      object (all falsy); a missing `breakers` list is []. */
  datatype Section = Section(
    dimensions: Option<Dimensions>,
    mainBreaker: Option<BreakerInfo>,
    breakers: seq<BreakerInfo>)

  /** The quote: its sections and the `str()` renderings of its
      special construction requirements. */
  datatype Quote = Quote(sections: seq<Section>, requirements: seq<string>)

  predicate Truthy(v: Scalar) {
    match v
    case Null => false
    case Str(s) => s != ""
    case Int(n) => n != 0
  }

  /** `str(v)` */
  function Render(v: Scalar): string {
    match v
    case Null => "None"
    case Str(s) => s
    case Int(n) => IntToString(n)
  }

  /** Index of the first digit at or after `i`, or |s|. */
  function FirstDigitFrom(s: string, i: int): (p: int)
    requires 0 <= i <= |s|
    ensures i <= p <= |s|
    ensures p < |s| ==> IsDigit(s[p])
    ensures forall k :: i <= k < p ==> !IsDigit(s[k])
    decreases |s| - i
  {
    if i == |s| || IsDigit(s[i]) then i else FirstDigitFrom(s, i + 1)
  }

  /** `d` is the run of digits starting at `p`, no digit occurs before `p`,
      and the run cannot be extended. */
  predicate LeftmostRun(s: string, p: int, d: string) {
    && 0 <= p && p + |d| <= |s| && d == s[p..p + |d|]
    && d != [] && AllDigits(d)
    && (forall k :: 0 <= k < p ==> !IsDigit(s[k]))
    && (p + |d| == |s| || !IsDigit(s[p + |d|]))
  }

  /** `re.search(r'(\d+)', s).group(1)`, None when nothing matches. */
  function FirstDigitRun(s: string): (r: Option<string>)
    ensures r.None? <==> forall k :: 0 <= k < |s| ==> !IsDigit(s[k])
    ensures r.Some? ==> exists p :: LeftmostRun(s, p, r.value)
  {
    var p := FirstDigitFrom(s, 0);
    if p == |s| then None
    else
      var e := RunEnd(s, p);
      assert LeftmostRun(s, p, s[p..e]);
      Some(s[p..e])
  }

  /** `_normalize_dimension`: a falsy value gives None; otherwise the first
      run of digits of its string form, or None when it has no digit. */
  function NormalizeDimension(v: Scalar): (r: Option<string>)
    ensures !Truthy(v) ==> r == None
    ensures Truthy(v) ==> r == FirstDigitRun(Render(v))
    ensures r.Some? ==> r.value != [] && AllDigits(r.value)
  {
    if !Truthy(v) then None else FirstDigitRun(Render(v))
  }

  /** A non-zero JSON number reads back as its own decimal digits (the
      sign of a negative number is dropped). */
  lemma NumericDimension(n: int)
    requires n != 0
    ensures NormalizeDimension(Int(n)) == Some(NatToString(if n < 0 then -n else n))
  {
    var s := IntToString(n);
    var digits := NatToString(if n < 0 then -n else n);
    var start := if n < 0 then 1 else 0;
    assert s[start..] == digits;
    assert FirstDigitFrom(s, 0) == start by {
      if n < 0 {
        assert !IsDigit(s[0]);
        assert IsDigit(s[1]) by { assert s[1] == digits[0]; }
      }
    }
    forall k | start <= k < |s|
      ensures IsDigit(s[k])
    {
      assert s[k] == digits[k - start];
    }
    assert RunEnd(s, start) == |s|;
    assert s[start..|s|] == digits;
  }

  /** Dimensions and breaker of one section: the main breaker wins with
      quantity 1, otherwise the first listed breaker with the list length. */
  function SectionFeatures(sec: Section): (r: Features)
    ensures r.access == None && r.mount == None
    ensures sec.dimensions.None? ==> r.height == r.width == r.depth == None
    ensures sec.dimensions.Some? ==>
      var d := sec.dimensions.value;
      && r.height == NormalizeDimension(d.height)
      && r.width == NormalizeDimension(d.width)
      && r.depth == NormalizeDimension(d.depth)
    ensures sec.mainBreaker.Some? ==>
      r.breakerType == sec.mainBreaker.value.breakerType && r.breakerQuantity == Some(1)
    ensures sec.mainBreaker.None? && sec.breakers != [] ==>
      r.breakerType == sec.breakers[0].breakerType && r.breakerQuantity == Some(|sec.breakers|)
    ensures sec.mainBreaker.None? && sec.breakers == [] ==>
      r.breakerType == None && r.breakerQuantity == None
  {
    var dims := match sec.dimensions
      case Some(d) => (NormalizeDimension(d.height), NormalizeDimension(d.width), NormalizeDimension(d.depth))
      case None => (None, None, None);
    var breaker :=
      if sec.mainBreaker.Some? then (sec.mainBreaker.value.breakerType, Some(1))
      else if sec.breakers != [] then (sec.breakers[0].breakerType, Some(|sec.breakers|))
      else (None, None);
    Features(dims.0, dims.1, dims.2, breaker.0, breaker.1, None, None)
  }

  /** Access from the lower-cased requirement text: the rear phrases are
      checked first. */
  function AccessFromLower(t: string): (r: Option<string>)
    ensures r == None || r == Some("Front and rear") || r == Some("Front only")
    ensures r == Some("Front and rear") <==> Contains(t, "front and rear") || Contains(t, "rear access")
    ensures r == None <==>
      !Contains(t, "front and rear") && !Contains(t, "rear access") && !Contains(t, "front access") && !Contains(t, "front only")
  {
    if Contains(t, "front and rear") || Contains(t, "rear access") then Some("Front and rear")
    else if Contains(t, "front access") || Contains(t, "front only") then Some("Front only")
    else None
  }

  /** Mount from the lower-cased requirement text: draw-out is checked first. */
  function MountFromLower(t: string): (r: Option<string>)
    ensures r == None || r == Some("Drawout") || r == Some("Fixed")
    ensures r == Some("Drawout") <==> Contains(t, "drawout") || Contains(t, "draw-out")
    ensures r == None <==> !Contains(t, "drawout") && !Contains(t, "draw-out") && !Contains(t, "fixed")
  {
    if Contains(t, "drawout") || Contains(t, "draw-out") then Some("Drawout")
    else if Contains(t, "fixed") then Some("Fixed")
    else None
  }

  /** `extract_features_from_quote`: only the first section is read; access
      and mount come from the requirements joined with spaces. */
  function ExtractFromQuote(q: Quote): (r: Features)
    ensures q.sections == [] ==> r.height == r.width == r.depth == None
    ensures q.sections == [] ==> r.breakerType == None && r.breakerQuantity == None
    ensures r.height.Some? ==> r.height.value != [] && AllDigits(r.height.value)
    ensures r.width.Some? ==> r.width.value != [] && AllDigits(r.width.value)
    ensures r.depth.Some? ==> r.depth.value != [] && AllDigits(r.depth.value)
    ensures r.breakerQuantity.Some? ==> r.breakerQuantity.value >= 1
    ensures r.breakerQuantity.None? ==> r.breakerType.None?
    ensures r.access == None || r.access == Some("Front and rear") || r.access == Some("Front only")
    ensures r.mount == None || r.mount == Some("Drawout") || r.mount == Some("Fixed")
  {
    var base := if q.sections == [] then NoFeatures else SectionFeatures(q.sections[0]);
    var req := Lower(Join(q.requirements, " "));
    base.(access := AccessFromLower(req), mount := MountFromLower(req))
  }

  /** Sections after the first never influence the extracted features. */
  lemma OnlyFirstSectionRead(q: Quote, rest: seq<Section>)
    requires q.sections != []
    ensures ExtractFromQuote(q) == ExtractFromQuote(q.(sections := [q.sections[0]] + rest))
  {
  }

  // ---------------------------------------------------------------------
  // Free text input

  /** The free-text regular expressions: digits followed by a dimension
      letter (`H`, `W` or `D`, the common first letter of each alternative
      such as `H|HIGH|HEIGHT`), or digits followed by a breaker keyword. */
  datatype Pattern = Dimension(letter: char) | BreakerCount

  /** End of the run of whitespace that starts at `p`. */
  function SpaceEnd(s: string, p: int): (e: int)
    requires 0 <= p <= |s|
    ensures p <= e <= |s|
    ensures forall k :: p <= k < e ==> IsSpace(s[k])
    ensures e == |s| || !IsSpace(s[e])
    decreases |s| - p
  {
    if p == |s| || !IsSpace(s[p]) then p else SpaceEnd(s, p + 1)
  }

  /** `(?:INCH|IN|"|')*\s*` then the letter, from index `i` of `u` (the
      whitespace before the units has already been consumed). */
  predicate UnitsThenLetter(u: string, i: int, letter: char)
    requires 0 <= i <= |u|
    decreases |u| - i
  {
    && i < |u|
    && (|| u[i] == letter
        || (IsSpace(u[i]) && SpaceEnd(u, i) < |u| && u[SpaceEnd(u, i)] == letter)
        || (OccursAt(u, "INCH", i) && UnitsThenLetter(u, i + 4, letter))
        || (OccursAt(u, "IN", i) && UnitsThenLetter(u, i + 2, letter))
        || ((u[i] == '"' || u[i] == '\'') && UnitsThenLetter(u, i + 1, letter)))
  }

  predicate BreakerWordAt(u: string, i: int) {
    OccursAt(u, "EMAX", i) || OccursAt(u, "TMAX", i) || OccursAt(u, "BREAKER", i)
  }

  /** `\s*(?:X\s*)?(?:EMAX|TMAX|BREAKER)` from index `i` of `u`. */
  predicate CountTail(u: string, i: int)
    requires 0 <= i <= |u|
  {
    var j := SpaceEnd(u, i);
    || BreakerWordAt(u, j)
    || (j < |u| && u[j] == 'X' && BreakerWordAt(u, SpaceEnd(u, j + 1)))
  }

  /** What must follow the digits, which end at index `e`. */
  predicate TailMatches(u: string, e: int, pat: Pattern)
    requires 0 <= e <= |u|
  {
    match pat
    case Dimension(letter) => UnitsThenLetter(u, SpaceEnd(u, e), letter)
    case BreakerCount => CountTail(u, e)
  }

  /** The regular expression matches when started at `p`; the greedy
      `(\d+)` takes the whole run of digits, since no tail can start with a
      digit. */
  predicate MatchAt(u: string, p: int, pat: Pattern) {
    0 <= p < |u| && IsDigit(u[p]) && TailMatches(u, RunEnd(u, p), pat)
  }

  /** Whether the pattern matches at each position of `u`. */
  function Hits(u: string, pat: Pattern): (h: seq<bool>)
    ensures |h| == |u|
    ensures forall k :: 0 <= k < |u| ==> h[k] == MatchAt(u, k, pat)
  {
    seq(|u|, k requires 0 <= k < |u| => MatchAt(u, k, pat))
  }

  /** The first true flag at or after `p`. */
  function FirstTrue(h: seq<bool>, p: int): (r: Option<int>)
    requires 0 <= p <= |h|
    ensures r.None? ==> forall k :: p <= k < |h| ==> !h[k]
    ensures r.Some? ==> p <= r.value < |h| && h[r.value]
    ensures r.Some? ==> forall k :: p <= k < r.value ==> !h[k]
    decreases |h| - p
  {
    if p == |h| then None
    else if h[p] then Some(p)
    else FirstTrue(h, p + 1)
  }

  /** A match that starts just after a digit extends to a match one
      position earlier: the run of digits ends at the same place. */
  lemma MatchExtendsLeft(u: string, p: int, pat: Pattern)
    requires MatchAt(u, p, pat) && p > 0 && IsDigit(u[p - 1])
    ensures MatchAt(u, p - 1, pat)
  {
    assert RunEnd(u, p - 1) == RunEnd(u, p);
  }

  /** `p` is the leftmost position where the pattern matches. */
  predicate FirstMatch(u: string, p: int, pat: Pattern) {
    MatchAt(u, p, pat) && forall k :: 0 <= k < p ==> !MatchAt(u, k, pat)
  }

  /** `re.search(pattern, u).group(1)`: the digits of the leftmost match. */
  function Search(u: string, pat: Pattern): (r: Option<string>)
    ensures r.None? <==> forall p :: 0 <= p < |u| ==> !MatchAt(u, p, pat)
    ensures r.Some? ==> r.value != [] && AllDigits(r.value)
    ensures r.Some? ==> exists p ::
      && FirstMatch(u, p, pat)
      && r.value == u[p..RunEnd(u, p)]
      && (p == 0 || !IsDigit(u[p - 1]))
  {
    var found := FirstTrue(Hits(u, pat), 0);
    if found.None? then None
    else
      var p := found.value;
      assert FirstMatch(u, p, pat);
      if p > 0 && IsDigit(u[p - 1]) then
        MatchExtendsLeft(u, p, pat);
        assert false;
        None
      else
        Some(u[p..RunEnd(u, p)])
  }

  /** The breaker chain of the free-text parser: four literals, first match
      wins, with neither Emax 4.2 nor the E6.2-style short forms. */
  function BreakerFromText(u: string): (r: Option<string>)
    ensures r == None || r == Some(Emax62) || r == Some(Emax22) || r == Some(Tmax) || r == Some(SquareD)
    ensures Contains(u, "EMAX 6.2") ==> r == Some(Emax62)
    ensures !Contains(u, "EMAX 6.2") && Contains(u, "EMAX 2.2") ==> r == Some(Emax22)
    ensures !Contains(u, "EMAX 6.2") && !Contains(u, "EMAX 2.2") && Contains(u, "TMAX") ==> r == Some(Tmax)
    ensures !Contains(u, "EMAX 6.2") && !Contains(u, "EMAX 2.2") && !Contains(u, "TMAX") && Contains(u, "SQUARE D") ==>
      r == Some(SquareD)
    ensures r == None <==>
      !Contains(u, "EMAX 6.2") && !Contains(u, "EMAX 2.2") && !Contains(u, "TMAX") && !Contains(u, "SQUARE D")
  {
    if Contains(u, "EMAX 6.2") then Some(Emax62)
    else if Contains(u, "EMAX 2.2") then Some(Emax22)
    else if Contains(u, "TMAX") then Some(Tmax)
    else if Contains(u, "SQUARE D") then Some(SquareD)
    else None
  }

  /** Access from the upper-cased user text. */
  function AccessFromUpper(u: string): (r: Option<string>)
    ensures r == None || r == Some("Front and rear") || r == Some("Front only")
    ensures r == Some("Front and rear") <==> Contains(u, "FRONT AND REAR") || Contains(u, "REAR ACCESS")
    ensures r == None <==>
      !Contains(u, "FRONT AND REAR") && !Contains(u, "REAR ACCESS") && !Contains(u, "FRONT ONLY") && !Contains(u, "FRONT ACCESS")
  {
    if Contains(u, "FRONT AND REAR") || Contains(u, "REAR ACCESS") then Some("Front and rear")
    else if Contains(u, "FRONT ONLY") || Contains(u, "FRONT ACCESS") then Some("Front only")
    else None
  }

  /** Mount from the upper-cased user text. */
  function MountFromUpper(u: string): (r: Option<string>)
    ensures r == None || r == Some("Drawout") || r == Some("Fixed")
    ensures r == Some("Drawout") <==> Contains(u, "DRAWOUT") || Contains(u, "DRAW-OUT")
    ensures r == None <==> !Contains(u, "DRAWOUT") && !Contains(u, "DRAW-OUT") && !Contains(u, "FIXED")
  {
    if Contains(u, "DRAWOUT") || Contains(u, "DRAW-OUT") then Some("Drawout")
    else if Contains(u, "FIXED") then Some("Fixed")
    else None
  }

  /** The feature parsing of `match_from_user_input`. */
  function ExtractFromText(text: string): (r: Features)
    ensures r.height.Some? ==> r.height.value != [] && AllDigits(r.height.value)
    ensures r.width.Some? ==> r.width.value != [] && AllDigits(r.width.value)
    ensures r.depth.Some? ==> r.depth.value != [] && AllDigits(r.depth.value)
    ensures r.breakerQuantity.Some? ==> r.breakerQuantity.value >= 0
    ensures r.breakerType.Some? ==> IsCanonical(r.breakerType.value) && r.breakerType.value != Emax42
    ensures r.access == None || r.access == Some("Front and rear") || r.access == Some("Front only")
    ensures r.mount == None || r.mount == Some("Drawout") || r.mount == Some("Fixed")
  {
    var u := Upper(text);
    var count := Search(u, BreakerCount);
    Features(
      Search(u, Dimension('H')),
      Search(u, Dimension('W')),
      Search(u, Dimension('D')),
      BreakerFromText(u),
      if count.Some? then Some(DigitsValue(count.value)) else None,
      AccessFromUpper(u),
      MountFromUpper(u))
  }

  /** A breaker quantity is read from free text only when its digits stand
      directly before an optional `X` and a breaker keyword. */
  lemma QuantityNeedsKeyword(text: string)
    requires ExtractFromText(text).breakerQuantity.Some?
    ensures exists p :: MatchAt(Upper(text), p, BreakerCount)
  {
  }

  /** Case-insensitive phrase search: looking for the lower-case form in
      the lower-cased text is the same as looking for the upper-case form
      in the upper-cased text. */
  lemma CaseInsensitiveContains(t: string, p: string)
    ensures Contains(Lower(t), Lower(p)) <==> Contains(Upper(t), Upper(p))
  {
    forall i | 0 <= i && i + |p| <= |t|
      ensures OccursAt(Lower(t), Lower(p), i) <==> OccursAt(Upper(t), Upper(p), i)
    {
      var lo, up := Lower(t)[i..i + |p|], Upper(t)[i..i + |p|];
      forall k | 0 <= k < |p|
        ensures (lo[k] == Lower(p)[k]) <==> (up[k] == Upper(p)[k])
      {
        CaseFoldAgree(t[i + k], p[k]);
      }
      if lo != Lower(p) {
        var k :| 0 <= k < |p| && lo[k] != Lower(p)[k];
        assert up[k] != Upper(p)[k];
      }
      if up != Upper(p) {
        var k :| 0 <= k < |p| && up[k] != Upper(p)[k];
        assert lo[k] != Lower(p)[k];
      }
    }
  }

  /** The quote path (lower-cased requirements) and the free-text path
      (upper-cased input) classify access identically, and mount likewise. */
  lemma AccessAgrees(t: string)
    ensures AccessFromLower(Lower(t)) == AccessFromUpper(Upper(t))
  {
    RearPhrasesAgree(t);
    FrontPhrasesAgree(t);
  }

  lemma RearPhrasesAgree(t: string)
    ensures Contains(Lower(t), "front and rear") <==> Contains(Upper(t), "FRONT AND REAR")
    ensures Contains(Lower(t), "rear access") <==> Contains(Upper(t), "REAR ACCESS")
  {
    PhraseAgrees(t, "front and rear", "FRONT AND REAR");
    PhraseAgrees(t, "rear access", "REAR ACCESS");
  }

  lemma FrontPhrasesAgree(t: string)
    ensures Contains(Lower(t), "front access") <==> Contains(Upper(t), "FRONT ACCESS")
    ensures Contains(Lower(t), "front only") <==> Contains(Upper(t), "FRONT ONLY")
  {
    PhraseAgrees(t, "front access", "FRONT ACCESS");
    PhraseAgrees(t, "front only", "FRONT ONLY");
  }

  lemma MountAgrees(t: string)
    ensures MountFromLower(Lower(t)) == MountFromUpper(Upper(t))
  {
    PhraseAgrees(t, "drawout", "DRAWOUT");
    PhraseAgrees(t, "draw-out", "DRAW-OUT");
    PhraseAgrees(t, "fixed", "FIXED");
  }

  lemma PhraseAgrees(t: string, lo: string, up: string)
    requires Lower(lo) == lo && Upper(lo) == up
    ensures Contains(Lower(t), lo) <==> Contains(Upper(t), up)
  {
    CaseInsensitiveContains(t, lo);
  }
}
