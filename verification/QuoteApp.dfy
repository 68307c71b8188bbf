/** The three computations of the quote-search page that sit next to the
    matcher: cleaning the language model's JSON reply, the match percentage
    on the assembly selection panel, and the CSV export of a BOM. */
module QuoteApp {
  import opened Optional
  import opened Text
  import opened Catalog
  import opened Breakers
  import opened Features
  import opened Matcher
  import opened CatalogFacts

  // ---------------------------------------------------------------------
  // JSON clean-up of the model's reply

  /** The reply with ```json and ``` fences removed, then stripped. */
  function Unfenced(reply: string): string {
    Strip(ReplaceAll(ReplaceAll(reply, "```json", ""), "```", ""))
  }

  /** A '{' occurs before the last '}'. */
  predicate HasBraceSpan(t: string) {
    FindChar(t, '{') != -1 && RFindChar(t, '}') + 1 > FindChar(t, '{')
  }

  /** Starts with '{' and ends with '}'. */
  predicate BraceDelimited(r: string) {
    |r| >= 2 && r[0] == '{' && r[|r| - 1] == '}'
  }

  /** The text from the first '{' through the last '}', or the text as it
      is when there is no such span. */
  function BraceSpan(t: string): (r: string)
    ensures !HasBraceSpan(t) ==> r == t
    ensures HasBraceSpan(t) ==>
      var st, en := FindChar(t, '{'), RFindChar(t, '}');
      && r == t[st..en + 1]
      && BraceDelimited(r)
      && '{' !in t[..st] && '}' !in t[en + 1..]
  {
    if HasBraceSpan(t) then t[FindChar(t, '{')..RFindChar(t, '}') + 1] else t
  }

  /** Cutting out the span a second time changes nothing. */
  lemma BraceSpanIdempotent(t: string)
    ensures BraceSpan(BraceSpan(t)) == BraceSpan(t)
  {
    var r := BraceSpan(t);
    if HasBraceSpan(t) {
      assert FindChar(r, '{') == 0;
      assert RFindChar(r, '}') == |r| - 1;
      assert r[0..|r|] == r;
    }
  }

  predicate IsCloser(c: char) { c == '}' || c == ']' }

  /** The pattern `,(\s*[}\]])` matches at `i`: a comma followed only by
      whitespace and then a closing brace or bracket. */
  predicate TrailingComma(s: string, i: int)
    requires 0 <= i < |s|
  {
    s[i] == ',' && SpaceEnd(s, i + 1) < |s| && IsCloser(s[SpaceEnd(s, i + 1)])
  }

  /** What one pass keeps of `s[i..]`. */
  function KeptFrom(s: string, i: int): string
    requires 0 <= i <= |s|
    decreases |s| - i
  {
    if i == |s| then [] else (if TrailingComma(s, i) then [] else [s[i]]) + KeptFrom(s, i + 1)
  }

  /** One `re.sub(r',(\s*[}\]])', r'\1', s)` pass: every trailing comma is
      deleted; each match ends at its closer, so matches never overlap. */
  function DropTrailingCommas(s: string): string {
    KeptFrom(s, 0)
  }

  /** `n` passes. */
  function CommaPasses(s: string, n: nat): string {
    if n == 0 then s else DropTrailingCommas(CommaPasses(s, n - 1))
  }

  /** `s` without any `c`. */
  function Without(s: string, c: char): (r: string)
    ensures c !in r
  {
    if s == [] then [] else (if s[0] == c then [] else [s[0]]) + Without(s[1..], c)
  }

  lemma {:induction false} WithoutAppend(a: string, b: string, c: char)
    ensures Without(a + b, c) == Without(a, c) + Without(b, c)
  {
    if a == [] {
      assert a + b == b;
    } else {
      var ab := a + b;
      assert ab[0] == a[0] && ab[1..] == a[1..] + b;
      WithoutAppend(a[1..], b, c);
      var head := if a[0] == c then [] else [a[0]];
      calc {
        Without(ab, c);
        head + Without(a[1..] + b, c);
        head + (Without(a[1..], c) + Without(b, c));
        (head + Without(a[1..], c)) + Without(b, c);
      }
    }
  }

  lemma {:induction false} KeptWithoutCommas(s: string, i: int)
    requires 0 <= i <= |s|
    ensures Without(KeptFrom(s, i), ',') == Without(s[i..], ',')
    decreases |s| - i
  {
    if i < |s| {
      KeptWithoutCommas(s, i + 1);
      var piece := if TrailingComma(s, i) then [] else [s[i]];
      WithoutAppend(piece, KeptFrom(s, i + 1), ',');
      assert s[i..] == [s[i]] + s[i + 1..];
      WithoutAppend([s[i]], s[i + 1..], ',');
    }
  }

  /** A pass deletes commas and nothing else: with the commas taken out,
      input and output agree. */
  lemma PassOnlyDeletesCommas(s: string)
    ensures Without(DropTrailingCommas(s), ',') == Without(s, ',')
  {
    KeptWithoutCommas(s, 0);
    assert s[0..] == s;
  }

  /** So do any number of passes. */
  lemma {:induction false} PassesOnlyDeleteCommas(s: string, n: nat)
    ensures Without(CommaPasses(s, n), ',') == Without(s, ',')
  {
    if n > 0 {
      PassesOnlyDeleteCommas(s, n - 1);
      PassOnlyDeletesCommas(CommaPasses(s, n - 1));
    }
  }

  lemma {:induction false} KeptFromEndsWithLast(s: string, i: int)
    requires 0 <= i < |s| && s[|s| - 1] != ','
    ensures var r := KeptFrom(s, i); r != [] && r[|r| - 1] == s[|s| - 1]
    decreases |s| - i
  {
    if i < |s| - 1 {
      KeptFromEndsWithLast(s, i + 1);
    }
  }

  /** A pass keeps a first and a last character that are not commas; in
      particular the braces around a cut-out object survive every pass. */
  lemma {:induction false} PassesKeepBraces(s: string, n: nat)
    requires BraceDelimited(s)
    ensures BraceDelimited(CommaPasses(s, n))
  {
    if n > 0 {
      PassesKeepBraces(s, n - 1);
      var p := CommaPasses(s, n - 1);
      KeptFromEndsWithLast(p, 0);
      KeptFromEndsWithLast(p, 1);
    }
  }

  lemma {:induction false} KeptFromUnchanged(s: string, i: int)
    requires 0 <= i <= |s|
    requires forall k :: i <= k < |s| ==> !TrailingComma(s, k)
    ensures KeptFrom(s, i) == s[i..]
    decreases |s| - i
  {
    if i < |s| {
      KeptFromUnchanged(s, i + 1);
      assert s[i..] == [s[i]] + s[i + 1..];
    }
  }

  /** Text without a trailing comma passes through unchanged. */
  lemma NoTrailingCommaUnchanged(s: string)
    requires forall k :: 0 <= k < |s| ==> !TrailingComma(s, k)
    ensures DropTrailingCommas(s) == s
  {
    KeptFromUnchanged(s, 0);
    assert s[0..] == s;
  }

  /** The end of the whitespace run starting at `p`, found by scanning. */
  lemma SpaceEndUnique(s: string, p: int, j: int)
    requires 0 <= p <= j <= |s|
    requires forall k :: p <= k < j ==> IsSpace(s[k])
    requires j == |s| || !IsSpace(s[j])
    ensures j == SpaceEnd(s, p)
  {
  }

  /** Scans past the whitespace starting at `p`. */
  method SkipSpaces(s: string, p: int) returns (j: int)
    requires 0 <= p <= |s|
    ensures j == SpaceEnd(s, p)
  {
    j := p;
    while j < |s| && IsSpace(s[j])
      invariant p <= j <= |s|
      invariant forall k :: p <= k < j ==> IsSpace(s[k])
    {
      j := j + 1;
    }
    SpaceEndUnique(s, p, j);
  }

  /** One clean-up pass, scanning left to right. */
  method DropTrailingCommasPass(s: string) returns (r: string)
    ensures r == DropTrailingCommas(s)
  {
    r := [];
    var i := 0;
    while i < |s|
      invariant 0 <= i <= |s|
      invariant r + KeptFrom(s, i) == KeptFrom(s, 0)
    {
      var keep := true;
      if s[i] == ',' {
        var j := SkipSpaces(s, i + 1);
        keep := !(j < |s| && IsCloser(s[j]));
      }
      assert keep == !TrailingComma(s, i);
      var piece := if keep then [s[i]] else [];
      assert r + KeptFrom(s, i) == (r + piece) + KeptFrom(s, i + 1);
      r := r + piece;
      i := i + 1;
    }
  }

  /** Keeps the text from the first '{' through the last '}' when a '{'
      comes before the last '}'. */
  method CutBraceSpan(t: string) returns (r: string)
    ensures r == BraceSpan(t)
  {
    r := t;
    var start := FindChar(t, '{');
    var end := RFindChar(t, '}') + 1;
    if start != -1 && end > start {
      r := t[start..end];
    }
  }

  /** The clean-up of `extract_specs_from_text`: remove the fences, strip,
      cut out the brace span, then five trailing-comma passes. */
  method CleanModelReply(reply: string) returns (cleaned: string)
    ensures cleaned == CommaPasses(BraceSpan(Unfenced(reply)), 5)
    ensures Without(cleaned, ',') == Without(BraceSpan(Unfenced(reply)), ',')
    ensures HasBraceSpan(Unfenced(reply)) ==> BraceDelimited(cleaned)
  {
    var t := RemoveFences(reply);
    var span := CutBraceSpan(t);
    cleaned := RepeatPasses(span, 5);
    SpanKeepsBraces(t, 5);
  }

  /** Removes the ```json and ``` fences and strips the result. */
  method RemoveFences(reply: string) returns (t: string)
    ensures t == Unfenced(reply)
    ensures !Contains(t, "```")
    ensures t != [] ==> !IsSpace(t[0]) && !IsSpace(t[|t| - 1])
  {
    t := ReplaceAll(reply, "```json", "");
    t := ReplaceAll(t, "```", "");
    t := Strip(t);
    UnfencedIsClean(reply);
  }

  /** No three backticks in a row. */
  predicate NoFence(r: string) {
    forall i :: 0 <= i < |r| - 2 ==> !(r[i] == '`' && r[i + 1] == '`' && r[i + 2] == '`')
  }

  /** A text not starting with a fence keeps its first character. */
  lemma FirstKept(x: string)
    requires x != [] && (|x| < 3 || x[..3] != "```")
    ensures ReplaceAll(x, "```", "") == [x[0]] + ReplaceAll(x[1..], "```", "")
  {
  }

  /** Removing fences left to right leaves no fence: of every run of `n`
      backticks, `n % 3` remain, still bounded by the characters around the
      run. */
  lemma {:induction false} FencesRemoved(s: string)
    ensures NoFence(ReplaceAll(s, "```", ""))
    decreases |s|
  {
    if |s| < 3 {
    } else if s[..3] == "```" {
      FencesRemoved(s[3..]);
    } else {
      var rest := ReplaceAll(s[1..], "```", "");
      FencesRemoved(s[1..]);
      FirstKept(s);
      if s[0] == '`' {
        if s[1] != '`' {
          FirstKept(s[1..]);
          assert rest[0] == s[1];
        } else {
          assert s[2] != '`';
          FirstKept(s[1..]);
          FirstKept(s[2..]);
          assert s[1..][1..] == s[2..];
          assert rest[1] == s[2];
        }
      }
      var r := [s[0]] + rest;
      forall i | 0 <= i < |r| - 2
        ensures !(r[i] == '`' && r[i + 1] == '`' && r[i + 2] == '`')
      {
        if i > 0 {
          assert r[i] == rest[i - 1] && r[i + 1] == rest[i] && r[i + 2] == rest[i + 1];
        }
      }
    }
  }

  lemma NoFenceSlice(r: string, a: int, b: int)
    requires NoFence(r) && 0 <= a <= b <= |r|
    ensures NoFence(r[a..b])
  {
    var t := r[a..b];
    forall i | 0 <= i < |t| - 2
      ensures !(t[i] == '`' && t[i + 1] == '`' && t[i + 2] == '`')
    {
      assert t[i] == r[a + i] && t[i + 1] == r[a + i + 1] && t[i + 2] == r[a + i + 2];
    }
  }

  lemma NoFenceNotContained(r: string)
    requires NoFence(r)
    ensures !Contains(r, "```")
  {
    if Contains(r, "```") {
      var i :| 0 <= i <= |r| && OccursAt(r, "```", i);
      OccursCharAt(r, "```", i, 0);
      OccursCharAt(r, "```", i, 1);
      OccursCharAt(r, "```", i, 2);
    }
  }

  /** The unfenced reply holds no fence and no whitespace at either end. */
  lemma UnfencedIsClean(reply: string)
    ensures !Contains(Unfenced(reply), "```")
    ensures var t := Unfenced(reply); t != [] ==> !IsSpace(t[0]) && !IsSpace(t[|t| - 1])
  {
    var u := ReplaceAll(ReplaceAll(reply, "```json", ""), "```", "");
    FencesRemoved(ReplaceAll(reply, "```json", ""));
    var a, b := StripSlice(u);
    StripEnds(u);
    NoFenceSlice(u, a, b);
    NoFenceNotContained(Strip(u));
  }

  /** `n` trailing-comma passes, one after another. */
  method RepeatPasses(s: string, n: nat) returns (r: string)
    ensures r == CommaPasses(s, n)
    ensures Without(r, ',') == Without(s, ',')
  {
    r := s;
    for pass := 0 to n
      invariant r == CommaPasses(s, pass)
    {
      r := DropTrailingCommasPass(r);
    }
    PassesOnlyDeleteCommas(s, n);
  }

  /** When the text has a brace span, the passes keep its braces. */
  lemma SpanKeepsBraces(t: string, n: nat)
    ensures HasBraceSpan(t) ==> BraceDelimited(CommaPasses(BraceSpan(t), n))
  {
    if HasBraceSpan(t) {
      PassesKeepBraces(BraceSpan(t), n);
    }
  }

  // ---------------------------------------------------------------------
  // Match percentage on the selection panel

  /** One upper-cased breaker name contains the other. */
  predicate NamesOverlap(a: string, b: string) {
    Contains(Upper(b), Upper(a)) || Contains(Upper(a), Upper(b))
  }

  /** The four points: equal height, width and depth, and a breaker given
      whose name overlaps the record's. */
  function MatchPoints(f: Features, s: AssemblySpec): (p: int)
    ensures 0 <= p <= 4
    ensures p == 4 <==>
      && f.height == Some(s.height) && f.width == Some(s.width) && f.depth == Some(s.depth)
      && Present(f.breakerType) && NamesOverlap(f.breakerType.value, s.breakerType)
    ensures !Present(f.breakerType) ==> p <= 3
  {
    (if f.height == Some(s.height) then 1 else 0)
    + (if f.width == Some(s.width) then 1 else 0)
    + (if f.depth == Some(s.depth) then 1 else 0)
    + (if Present(f.breakerType) && NamesOverlap(f.breakerType.value, s.breakerType) then 1 else 0)
  }

  /** The percentage shown on a candidate button: `int(points / 4 * 100)`,
      which is exact in binary floating point for 0 to 4 points. */
  method MatchPercent(f: Features, s: AssemblySpec) returns (pct: int)
    ensures pct == 25 * MatchPoints(f, s)
    ensures pct == 0 || pct == 25 || pct == 50 || pct == 75 || pct == 100
    ensures !Present(f.breakerType) ==> pct <= 75
  {
    var score := 0;
    var heightMatch := f.height == Some(s.height);
    var widthMatch := f.width == Some(s.width);
    var depthMatch := f.depth == Some(s.depth);
    var breakerMatch := false;
    if Present(f.breakerType) {
      breakerMatch := NamesOverlap(f.breakerType.value, s.breakerType);
    }
    if heightMatch { score := score + 1; }
    if widthMatch { score := score + 1; }
    if depthMatch { score := score + 1; }
    if breakerMatch { score := score + 1; }
    pct := score * 100 / 4;
  }

  /** A string is contained only in strings at least as long. */
  lemma ContainedIsShorter(a: string, b: string)
    ensures Contains(a, b) ==> |b| <= |a| && (|b| == |a| ==> a == b)
  {
    if Contains(a, b) {
      var i :| 0 <= i <= |a| && OccursAt(a, b, i);
      assert |b| == |a| ==> i == 0 && a[0..|a|] == a;
    }
  }

  /** Unlike the family test of the matcher, the panel's breaker point
      tells the canonical names apart: among them it is plain equality, so
      an Emax 6.2 query earns no point against an Emax 2.2 record. */
  lemma CanonicalOverlapIsEquality(c: string, d: string)
    requires IsCanonical(c) && IsCanonical(d)
    ensures NamesOverlap(c, d) <==> c == d
  {
    UpperCanonical(c);
    UpperCanonical(d);
    var uc, ud := Upper(c), Upper(d);
    ContainedIsShorter(uc, ud);
    ContainedIsShorter(ud, uc);
    assert uc[0..|uc|] == uc;
    assert OccursAt(uc, uc, 0);
    if c != d {
      if |uc| == |ud| {
        assert uc[14] != ud[14];
        assert uc != ud;
        assert !Contains(uc, ud);
        assert !Contains(ud, uc);
      } else if |uc| < |ud| {
        NotContainedAcross(c, d);
        assert !Contains(uc, ud);
      } else {
        NotContainedAcross(d, c);
        assert !Contains(ud, uc);
      }
      assert !NamesOverlap(c, d);
    }
  }

  lemma UpperCanonical(c: string)
    requires IsCanonical(c)
    ensures c == Emax62 ==> Upper(c) == "ABB SACE EMAX 6.2"
    ensures c == Emax42 ==> Upper(c) == "ABB SACE EMAX 4.2"
    ensures c == Emax22 ==> Upper(c) == "ABB SACE EMAX 2.2"
    ensures c == Tmax ==> Upper(c) == "ABB SACE TMAX"
    ensures c == SquareD ==> Upper(c) == "SQUARE D"
  {
  }

  /** Upper-cased canonical names of different lengths are never contained
      in one another: the shorter has a letter the longer lacks. */
  lemma NotContainedAcross(c: string, d: string)
    requires IsCanonical(c) && IsCanonical(d)
    requires |Upper(c)| < |Upper(d)|
    ensures !Contains(Upper(d), Upper(c))
  {
    UpperCanonical(c);
    UpperCanonical(d);
    if c == Tmax {
      assert 'T' !in Upper(d);
      MissingCharNotContained(Upper(d), Upper(c), 9);
    } else {
      assert c == SquareD;
      assert 'Q' !in Upper(d);
      MissingCharNotContained(Upper(d), Upper(c), 1);
    }
  }

  // ---------------------------------------------------------------------
  // Selection panel

  datatype Candidate = Candidate(id: string, percent: int)

  /** At most nine buttons, three per row. */
  const PanelLimit: int := 9
  const PerRow: int := 3

  /** The panel appears for an ambiguous or failed match with a non-empty
      list of numbers. */
  predicate PanelShown(report: Report) {
    (report.status == Ambiguous || report.status == NoMatch) && report.matched != []
  }

  /** The detected breaker is shown cut to this many characters. */
  const LabelWidth: int := 20

  /** The breaker metric of the detected specifications, as written: the
      features always hold the key, so `get` returns the stored None rather
      than the default, and `len(None)` raises a TypeError (None here). */
  function BreakerLabelAsWritten(f: Features): (r: Option<string>)
    ensures r.None? <==> f.breakerType.None?
    ensures r.Some? ==> r.value == BreakerLabel(f)
  {
    match f.breakerType
    case None => None
    case Some(b) => Some(if |b| > LabelWidth then b[..LabelWidth] else b)
  }

  /** The breaker metric as intended: "Not specified" when no breaker was
      extracted, otherwise the name cut to twenty characters. */
  function BreakerLabel(f: Features): (r: string)
    ensures |r| <= LabelWidth
    ensures f.breakerType.None? ==> r == "Not specified"
    ensures f.breakerType.Some? ==>
      var b := f.breakerType.value; |r| == Min(|b|, LabelWidth) && r == b[..|r|]
  {
    match f.breakerType
    case None => "Not specified"
    case Some(b) => if |b| > LabelWidth then b[..LabelWidth] else b
  }

  /** The chat text "switchboard" names no dimension, breaker, access or
      mount: it has no digit and lacks a letter of every phrase. */
  lemma SwitchboardHasNoFeatures()
    ensures ExtractFromText("switchboard") == NoFeatures
  {
    var u := Upper("switchboard");
    SwitchboardUpper();
    NoDigitNoMatch(u, Dimension('H'));
    NoDigitNoMatch(u, Dimension('W'));
    NoDigitNoMatch(u, Dimension('D'));
    NoDigitNoMatch(u, BreakerCount);
    SwitchboardNoPhrase();
  }

  lemma SwitchboardUpper()
    ensures Upper("switchboard") == "SWITCHBOARD"
    ensures forall k :: 0 <= k < |"SWITCHBOARD"| ==> !IsDigit("SWITCHBOARD"[k])
  {
  }

  /** A text without digits matches none of the free-text patterns. */
  lemma NoDigitNoMatch(u: string, pat: Pattern)
    requires forall k :: 0 <= k < |u| ==> !IsDigit(u[k])
    ensures Search(u, pat) == None
  {
  }

  lemma SwitchboardNoPhrase()
    ensures BreakerFromText("SWITCHBOARD") == None
    ensures AccessFromUpper("SWITCHBOARD") == None
    ensures MountFromUpper("SWITCHBOARD") == None
  {
    var u := "SWITCHBOARD";
    assert 'E' !in u && 'M' !in u && 'Q' !in u && 'F' !in u && 'U' !in u;
    MissingCharNotContained(u, "EMAX 6.2", 0);
    MissingCharNotContained(u, "EMAX 2.2", 0);
    MissingCharNotContained(u, "TMAX", 1);
    MissingCharNotContained(u, "SQUARE D", 1);
    MissingCharNotContained(u, "FRONT AND REAR", 0);
    MissingCharNotContained(u, "REAR ACCESS", 1);
    MissingCharNotContained(u, "FRONT ONLY", 0);
    MissingCharNotContained(u, "FRONT ACCESS", 0);
    MissingCharNotContained(u, "DRAWOUT", 5);
    MissingCharNotContained(u, "DRAW-OUT", 6);
    MissingCharNotContained(u, "FIXED", 0);
  }

  /** Typing "switchboard" extracts no feature, every record accepts the
      query, and the panel is shown for the ambiguous match; the breaker
      metric as written then raises. */
  lemma SwitchboardBreaksPanel(m: Matcher, report: Report)
    requires m.specs == Specs()
    requires ReportFor(m, ExtractFromText("switchboard"), report)
    ensures PanelShown(report) && report.features == Some(NoFeatures)
    ensures BreakerLabelAsWritten(report.features.value).None?
    ensures BreakerLabel(report.features.value) == "Not specified"
  {
    SwitchboardHasNoFeatures();
    EmptyQueryAmbiguous();
  }

  /** The candidate buttons of `display_bom_card`, row by row, and the
      detected breaker above them. A number without a specification record
      raises the KeyError of the lookup. */
  method SelectionPanel(m: Matcher, report: Report) returns (shownBreaker: string, panel: Outcome<seq<Candidate>>)
    ensures PanelShown(report) ==> shownBreaker == BreakerLabel(report.features.GetOr(NoFeatures))
    ensures !PanelShown(report) ==> shownBreaker == "" && panel == Ok([])
    ensures var n := Min(|report.matched|, PanelLimit);
      panel.Raised? <==> PanelShown(report) && exists k :: 0 <= k < n && report.matched[k] !in Ids(m.specs)
    ensures panel.Raised? ==> panel.missingKey in report.matched && panel.missingKey !in Ids(m.specs)
    ensures PanelShown(report) && panel.Ok? ==>
      var n, f := Min(|report.matched|, PanelLimit), report.features.GetOr(NoFeatures);
      && |panel.value| == n
      && forall k :: 0 <= k < n ==>
           && panel.value[k].id == report.matched[k]
           && LookupSpec(m.specs, report.matched[k]).Some?
           && panel.value[k].percent == 25 * MatchPoints(f, LookupSpec(m.specs, report.matched[k]).value)
  {
    if !PanelShown(report) {
      return "", Ok([]);
    }
    var n := Min(|report.matched|, PanelLimit);
    var f := report.features.GetOr(NoFeatures);
    shownBreaker := BreakerLabel(f);
    var shown: seq<Candidate> := [];
    var i := 0;
    while i < n
      invariant 0 <= i && |shown| == Min(i, n)
      invariant forall k :: 0 <= k < |shown| ==>
        && shown[k].id == report.matched[k]
        && LookupSpec(m.specs, report.matched[k]).Some?
        && shown[k].percent == 25 * MatchPoints(f, LookupSpec(m.specs, report.matched[k]).value)
    {
      var j := 0;
      while j < PerRow
        invariant 0 <= j <= PerRow && |shown| == Min(i + j, n)
        invariant forall k :: 0 <= k < |shown| ==>
          && shown[k].id == report.matched[k]
          && LookupSpec(m.specs, report.matched[k]).Some?
          && shown[k].percent == 25 * MatchPoints(f, LookupSpec(m.specs, report.matched[k]).value)
      {
        var idx := i + j;
        if idx < n {
          var id := report.matched[idx];
          var spec := LookupSpec(m.specs, id);
          if spec.None? {
            return shownBreaker, Raised(id);
          }
          var pct := MatchPercent(f, spec.value);
          shown := shown + [Candidate(id, pct)];
        }
        j := j + 1;
      }
      i := i + PerRow;
    }
    panel := Ok(shown);
  }

  /** For a report of either entry point the panel appears exactly for an
      ambiguous match (a failed match reports no numbers), and every number
      it lists has a specification record, so the lookup never raises. */
  lemma PanelOnlyForAmbiguous(m: Matcher, query: Features, report: Report)
    requires ReportFor(m, query, report)
    ensures PanelShown(report) <==> report.status == Ambiguous
    ensures forall id :: id in report.matched ==> id in Ids(m.specs)
  {
    var f := NormalizedQuery(query);
    var ix := AcceptedIndices(m.specs, f);
    forall j | 0 <= j < |ix|
      ensures AcceptedIds(m.specs, f)[j] in Ids(m.specs)
    {
      assert Ids(m.specs)[ix[j]] == AcceptedIds(m.specs, f)[j];
    }
  }

  // ---------------------------------------------------------------------
  // CSV export of a BOM

  const CsvHeader: string := "Item,Part Number,Description,Quantity"

  /** Commas in a part number become semicolons. */
  function SanitizePart(p: string): (r: string)
    ensures |r| == |p| && ',' !in r
    ensures forall k :: 0 <= k < |p| ==> r[k] == (if p[k] == ',' then ';' else p[k])
  {
    ReplaceChar(p, ',', ';')
  }

  /** Commas in a description become semicolons and newlines spaces. */
  function SanitizeDescription(d: string): (r: string)
    ensures |r| == |d| && ',' !in r && '\n' !in r
    ensures forall k :: 0 <= k < |d| ==>
      r[k] == (if d[k] == ',' then ';' else if d[k] == '\n' then ' ' else d[k])
  {
    ReplaceChar(ReplaceChar(d, ',', ';'), '\n', ' ')
  }

  /** The four fields of the row of the component numbered `n`. */
  function RowFieldsOf(n: int, c: Component): seq<string> {
    [IntToString(n), SanitizePart(c.partNumber), SanitizeDescription(c.description), IntToString(c.quantity)]
  }

  /** The row of the component numbered `n`, without its newline. */
  function RowLine(n: int, c: Component): string {
    Join(RowFieldsOf(n, c), ",")
  }

  /** The header line and the component rows numbered from 1. */
  function CsvLines(cs: seq<Component>): seq<string> {
    NumberedLines(CsvHeader, cs, RowLine)
  }

  /** Each line followed by a newline. */
  function Terminated(lines: seq<string>): string {
    if lines == [] then "" else lines[0] + "\n" + Terminated(lines[1..])
  }

  function CsvText(cs: seq<Component>): string {
    Terminated(CsvLines(cs))
  }

  lemma {:induction false} TerminatedSnoc(lines: seq<string>)
    requires lines != []
    ensures Terminated(lines) == Terminated(lines[..|lines| - 1]) + lines[|lines| - 1] + "\n"
  {
    if |lines| == 1 {
      assert lines[..0] == [] && lines[1..] == [];
    } else {
      TerminatedSnoc(lines[1..]);
      assert lines[1..][..|lines| - 2] == lines[..|lines| - 1][1..];
      assert lines[..|lines| - 1][0] == lines[0];
    }
  }

  /** Terminating one more line appends it and its newline. */
  lemma TerminatedStep(lines: seq<string>, i: int)
    requires 0 < i < |lines|
    ensures Terminated(lines[..i + 1]) == Terminated(lines[..i]) + lines[i] + "\n"
  {
    var next := lines[..i + 1];
    assert next[..i] == lines[..i] && next[i] == lines[i];
    TerminatedSnoc(next);
  }

  /** A header line, then one line per item, numbered from 1. */
  function NumberedLines<T>(header: string, items: seq<T>, format: (int, T) -> string): (r: seq<string>)
    ensures |r| == |items| + 1 && r[0] == header
    ensures forall k :: 0 <= k < |items| ==> r[k + 1] == format(k + 1, items[k])
  {
    [header] + seq(|items|, k requires 0 <= k < |items| => format(k + 1, items[k]))
  }

  /** Writes the header and the numbered item lines, each with its newline. */
  method WriteNumberedLines<T>(header: string, items: seq<T>, format: (int, T) -> string) returns (text: string)
    ensures text == Terminated(NumberedLines(header, items, format))
  {
    ghost var lines := NumberedLines(header, items, format);
    text := header + "\n";
    assert lines[..1] == [header] && lines[..1][1..] == [];
    for i := 0 to |items|
      invariant text == Terminated(lines[..i + 1])
    {
      TerminatedStep(lines, i + 1);
      text := text + format(i + 1, items[i]) + "\n";
    }
    assert lines[..|items| + 1] == lines;
  }

  /** The export button: the header, then one numbered row per component. */
  method ExportCsv(components: seq<Component>) returns (csv: string)
    ensures csv == CsvText(components)
  {
    csv := WriteNumberedLines(CsvHeader, components, RowLine);
  }

  /** `s.split(c)` */
  function SplitOn(s: string, c: char): (r: seq<string>)
    ensures |r| >= 1
    decreases |s|
  {
    var k := FindChar(s, c);
    if k == -1 then [s] else [s[..k]] + SplitOn(s[k + 1..], c)
  }

  lemma SplitCons(a: string, c: char, b: string)
    requires c !in a
    ensures SplitOn(a + [c] + b, c) == [a] + SplitOn(b, c)
  {
    var s := a + [c] + b;
    assert s[|a|] == c;
    var k := FindChar(s, c);
    assert forall j :: 0 <= j < |a| ==> s[j] != c;
    assert forall j :: 0 <= j < k ==> s[j] != c;
    assert k == |a|;
    assert s[..k] == a && s[k + 1..] == b;
  }

  lemma IntToStringHasNoSeparator(n: int)
    ensures ',' !in IntToString(n) && '\n' !in IntToString(n)
  {
    var s := IntToString(n);
    if n < 0 {
      assert s == "-" + NatToString(-n);
    }
  }

  lemma RowLineHasNoNewline(n: int, c: Component)
    requires '\n' !in c.partNumber
    ensures '\n' !in RowLine(n, c)
  {
    IntToStringHasNoSeparator(n);
    IntToStringHasNoSeparator(c.quantity);
    assert forall k :: 0 <= k < |c.partNumber| ==> SanitizePart(c.partNumber)[k] != '\n';
    JoinAvoids(RowFieldsOf(n, c), ",", '\n');
  }

  lemma {:induction false} JoinAvoids(parts: seq<string>, sep: string, c: char)
    requires c !in sep
    requires forall k :: 0 <= k < |parts| ==> c !in parts[k]
    ensures c !in Join(parts, sep)
  {
    if |parts| > 1 {
      JoinAvoids(parts[1..], sep, c);
    }
  }

  /** Splitting a join at its separator gives back the parts, provided
      no part contains the separator. */
  lemma {:induction false} SplitJoin(parts: seq<string>, c: char)
    requires parts != []
    requires forall k :: 0 <= k < |parts| ==> c !in parts[k]
    ensures SplitOn(Join(parts, [c]), c) == parts
  {
    if |parts| == 1 {
      assert FindChar(parts[0], c) == -1;
    } else {
      SplitJoin(parts[1..], c);
      SplitCons(parts[0], c, Join(parts[1..], [c]));
      assert parts == [parts[0]] + parts[1..];
    }
  }

  /** Splitting newline-terminated lines at newlines gives back the lines
      and the empty text after the last newline. */
  lemma {:induction false} SplitTerminated(lines: seq<string>)
    requires forall k :: 0 <= k < |lines| ==> '\n' !in lines[k]
    ensures SplitOn(Terminated(lines), '\n') == lines + [""]
  {
    if lines == [] {
      assert FindChar("", '\n') == -1;
    } else {
      var h, rest := lines[0], lines[1..];
      var t := Terminated(rest);
      SplitTerminated(rest);
      assert Terminated(lines) == h + ['\n'] + t;
      SplitCons(h, '\n', t);
      assert SplitOn(Terminated(lines), '\n') == [h] + (rest + [""]);
      assert [h] + (rest + [""]) == ([h] + rest) + [""];
      assert lines == [h] + rest;
    }
  }

  /** Splitting a row at commas gives back its four fields. */
  lemma RowFields(n: int, c: Component)
    ensures SplitOn(RowLine(n, c), ',') == RowFieldsOf(n, c)
  {
    IntToStringHasNoSeparator(n);
    IntToStringHasNoSeparator(c.quantity);
    assert "," == [','];
    SplitJoin(RowFieldsOf(n, c), ',');
  }

  /** `int(s)` accepts `s` and gives `n`. */
  predicate ParsesTo(s: string, n: int) {
    s != [] && (AllDigits(s) || (s[0] == '-' && AllDigits(s[1..]))) && ParseInt(s) == n
  }

  /** Split at commas, `line` gives the four fields of the row of `c`
      numbered `n`, and both numbers parse back. */
  predicate ReadsBack(line: string, n: int, c: Component) {
    var fields := SplitOn(line, ',');
    && fields == RowFieldsOf(n, c)
    && ParsesTo(fields[0], n) && ParsesTo(fields[3], c.quantity)
  }

  /** Every row reads back. */
  lemma RowRoundTrip(n: int, c: Component)
    ensures ReadsBack(RowLine(n, c), n, c)
  {
    RowFields(n, c);
    IntToStringRoundTrip(n);
    IntToStringRoundTrip(c.quantity);
  }

  /** Every row line of the export reads back. */
  lemma RowsReadBack(cs: seq<Component>)
    ensures forall k :: 0 <= k < |cs| ==> ReadsBack(CsvLines(cs)[k + 1], k + 1, cs[k])
  {
    forall k | 0 <= k < |cs|
      ensures ReadsBack(CsvLines(cs)[k + 1], k + 1, cs[k])
    {
      RowRoundTrip(k + 1, cs[k]);
    }
  }

  /** No line of the export holds a newline of its own. */
  lemma LinesHaveNoNewline(cs: seq<Component>)
    requires forall k :: 0 <= k < |cs| ==> '\n' !in cs[k].partNumber
    ensures forall k :: 0 <= k < |CsvLines(cs)| ==> '\n' !in CsvLines(cs)[k]
  {
    var all := CsvLines(cs);
    assert '\n' !in CsvHeader;
    forall k | 0 <= k < |all|
      ensures '\n' !in all[k]
    {
      if k > 0 {
        RowLineHasNoNewline(k, cs[k - 1]);
        assert all[k] == RowLine(k, cs[k - 1]);
      }
    }
  }

  /** Reading the export back: split at newlines it is the header, one line
      per component and the empty text after the last newline, and each
      line reads back as its component's row. Part numbers keep their
      newlines, so this needs them to have none. */
  lemma CsvRoundTrip(cs: seq<Component>)
    requires forall k :: 0 <= k < |cs| ==> '\n' !in cs[k].partNumber
    ensures var lines := SplitOn(CsvText(cs), '\n');
      && |lines| == |cs| + 2
      && lines[0] == CsvHeader && lines[|cs| + 1] == ""
      && forall k :: 0 <= k < |cs| ==> ReadsBack(lines[k + 1], k + 1, cs[k])
  {
    LinesHaveNoNewline(cs);
    SplitTerminated(CsvLines(cs));
    RowsReadBack(cs);
  }
}
