/** The assembly matcher: the feature filter over the specification table,
    the closeness ranking used when nothing passes, the bill of materials,
    and the two entry points that chain extraction, matching and the BOM. */
module Matcher {
  import opened Optional
  import opened Text
  import opened Catalog
  import opened Breakers
  import opened Features

  /** A loaded matcher: the specification table (always the ten hard-coded
      records after construction) and the spreadsheet rows per assembly.
      Nothing changes it after loading. */
  datatype Matcher = Matcher(specs: seq<CatalogEntry>, assemblies: seq<Assembly>)

  /** The matcher as the constructor leaves it; the spreadsheet is grouped
      by its distinct assembly numbers. */
  function Loaded(parts: seq<Assembly>): (m: Matcher)
    requires Distinct(AssemblyIds(parts))
    ensures m.specs == Specs() && m.assemblies == parts
  {
    Matcher(Specs(), parts)
  }

  datatype Status = ExactMatch | Ambiguous | NoMatch | Error

  /** An (assembly number, score) pair of the closeness ranking. */
  datatype Scored = Scored(id: string, score: int)

  /** The content of the human-readable message of each outcome. */
  datatype Message =
    | ExactMessage(id: string, project: string, totalParts: int)
    | AmbiguousMessage(ids: seq<string>)
    | NoMatchMessage(closest: seq<Scored>)
    | ErrorMessage(missingKey: string)

  datatype MatchOutcome = MatchOutcome(ids: seq<string>, status: Status, message: Message)

  /** A result, or the KeyError raised on a missing assembly number. */
  datatype Outcome<T> = Ok(value: T) | Raised(missingKey: string)

  // ---------------------------------------------------------------------
  // The filter

  /** `_features_match`: a falsy feature never rejects; a present one must
      agree with the record (dimensions exactly, the breaker by family on
      upper-cased names, the quantity unless the record says 'multiple',
      access and mount ignoring case). */
  predicate FeaturesMatch(f: Features, s: AssemblySpec)
    ensures f == NoFeatures ==> FeaturesMatch(f, s)
    ensures FeaturesMatch(f, s) ==>
      && (Present(f.height) ==> f.height == Some(s.height))
      && (Present(f.width) ==> f.width == Some(s.width))
      && (Present(f.depth) ==> f.depth == Some(s.depth))
  {
    && (Present(f.height) ==> f.height.value == s.height)
    && (Present(f.width) ==> f.width.value == s.width)
    && (Present(f.depth) ==> f.depth.value == s.depth)
    && (Present(f.breakerType) ==> BreakerCompatible(Upper(f.breakerType.value), Upper(s.breakerType)))
    && (QuantityPresent(f.breakerQuantity) && s.breakerQuantity.Count? ==>
          f.breakerQuantity.value == s.breakerQuantity.n)
    && (Present(f.access) ==> Lower(f.access.value) == Lower(s.access))
    && (Present(f.mount) ==> Lower(f.mount.value) == Lower(s.mount))
  }

  /** `f` constrains every field `g` constrains, and in the same way. */
  predicate AtLeastAsSpecific(f: Features, g: Features) {
    && (Present(g.height) ==> g.height == f.height)
    && (Present(g.width) ==> g.width == f.width)
    && (Present(g.depth) ==> g.depth == f.depth)
    && (Present(g.breakerType) ==> g.breakerType == f.breakerType)
    && (QuantityPresent(g.breakerQuantity) ==> g.breakerQuantity == f.breakerQuantity)
    && (Present(g.access) ==> g.access == f.access)
    && (Present(g.mount) ==> g.mount == f.mount)
  }

  /** Positions of the records the features pass, in table order. */
  function AcceptedIndices(cat: seq<CatalogEntry>, f: Features): (r: seq<int>)
    ensures forall j :: 0 <= j < |r| ==> 0 <= r[j] < |cat|
    ensures forall j, k :: 0 <= j < k < |r| ==> r[j] < r[k]
    ensures forall i :: 0 <= i < |cat| ==> (i in r <==> FeaturesMatch(f, cat[i].spec))
  {
    if cat == [] then []
    else
      var n := |cat| - 1;
      var init := AcceptedIndices(cat[..n], f);
      assert forall i :: 0 <= i < n ==> cat[..n][i] == cat[i];
      if FeaturesMatch(f, cat[n].spec) then init + [n] else init
  }

  /** The assembly numbers the features pass, in table order. */
  function AcceptedIds(cat: seq<CatalogEntry>, f: Features): seq<string> {
    var ix := AcceptedIndices(cat, f);
    seq(|ix|, j requires 0 <= j < |ix| => cat[ix[j]].id)
  }

  /** Scanning one more record appends its number exactly when it passes. */
  lemma AcceptedIdsStep(cat: seq<CatalogEntry>, f: Features, i: int)
    requires 0 <= i < |cat|
    ensures AcceptedIds(cat[..i + 1], f) ==
      AcceptedIds(cat[..i], f) + (if FeaturesMatch(f, cat[i].spec) then [cat[i].id] else [])
  {
    var c := cat[..i + 1];
    assert c[..i] == cat[..i];
    var ix, jx := AcceptedIndices(c, f), AcceptedIndices(cat[..i], f);
    assert ix == jx + (if FeaturesMatch(f, cat[i].spec) then [i] else []);
    forall j | 0 <= j < |jx|
      ensures c[ix[j]].id == cat[..i][jx[j]].id
    {
    }
  }

  /** Passing a record is monotone: dropping or clearing constraints never
      loses a record, so a less specific query accepts a superset. */
  lemma MatchMonotone(f: Features, g: Features, cat: seq<CatalogEntry>)
    requires AtLeastAsSpecific(f, g)
    ensures forall i :: i in AcceptedIndices(cat, f) ==> i in AcceptedIndices(cat, g)
  {
    forall i | i in AcceptedIndices(cat, f)
      ensures i in AcceptedIndices(cat, g)
    {
      var s := cat[i].spec;
      assert FeaturesMatch(f, s);
    }
  }

  /** A query with no feature present passes every record. */
  lemma EmptyQueryAcceptsAll(cat: seq<CatalogEntry>)
    ensures forall i :: 0 <= i < |cat| ==> i in AcceptedIndices(cat, NoFeatures)
  {
  }

  /** The breaker of the caller's dict after `match_assembly` has
      normalised it in place (only a truthy breaker is touched). */
  function NormalizedQuery(f: Features): (g: Features)
    ensures Present(g.breakerType) == Present(f.breakerType)
    ensures !Present(f.breakerType) ==> g == f
    ensures g.(breakerType := f.breakerType) == f
    ensures Present(g.breakerType) ==>
      IsCanonical(g.breakerType.value) || g.breakerType == f.breakerType
  {
    if Present(f.breakerType) then f.(breakerType := Some(NormalizeBreakerType(f.breakerType.value))) else f
  }

  /** Normalising an already normalised query changes nothing. */
  lemma NormalizedQueryIdempotent(f: Features)
    ensures NormalizedQuery(NormalizedQuery(f)) == NormalizedQuery(f)
  {
    if Present(f.breakerType) {
      NormalizeIdempotent(f.breakerType.value);
    }
  }

  /** Status from the number of records that passed. */
  function StatusFor(count: int): (r: Status)
    ensures r != Error
    ensures r == ExactMatch <==> count == 1
    ensures r == Ambiguous <==> count > 1
    ensures r == NoMatch <==> count <= 0
  {
    if count == 1 then ExactMatch else if count > 1 then Ambiguous else NoMatch
  }

  /** `match_assembly`. Returns the normalised query (the caller's dict is
      updated in place) and the outcome, or the KeyError raised when the
      single passing record has no spreadsheet rows. */
  method MatchAssembly(m: Matcher, query: Features) returns (f: Features, result: Outcome<MatchOutcome>)
    ensures f == NormalizedQuery(query)
    ensures var acc := AcceptedIds(m.specs, f);
      result.Raised? <==> |acc| == 1 && acc[0] !in AssemblyIds(m.assemblies)
    ensures var acc := AcceptedIds(m.specs, f);
      result.Raised? ==> result.missingKey == acc[0]
    ensures var acc := AcceptedIds(m.specs, f);
      result.Ok? ==> && result.value.status == StatusFor(|acc|)
                     && result.value.ids == acc
    ensures var acc := AcceptedIds(m.specs, f);
      result.Ok? && |acc| == 1 ==>
        && LookupSpec(m.specs, acc[0]).Some?
        && result.value.message == ExactMessage(acc[0], LookupSpec(m.specs, acc[0]).value.project,
                                                |LookupRows(m.assemblies, acc[0]).value|)
    ensures var acc := AcceptedIds(m.specs, f);
      result.Ok? && |acc| > 1 ==> result.value.message == AmbiguousMessage(acc)
    ensures var acc := AcceptedIds(m.specs, f);
      result.Ok? && acc == [] ==> result.value.message == NoMatchMessage(Closest(m.specs, f, 3))
  {
    f := NormalizedQuery(query);
    var cat := m.specs;
    var matches: seq<string> := [];
    for i := 0 to |cat|
      invariant matches == AcceptedIds(cat[..i], f)
    {
      AcceptedIdsStep(cat, f, i);
      if FeaturesMatch(f, cat[i].spec) {
        matches := matches + [cat[i].id];
      }
    }
    assert cat[..|cat|] == cat;
    if |matches| == 1 {
      var id := matches[0];
      var rows := LookupRows(m.assemblies, id);
      if rows.None? {
        return f, Raised(id);
      }
      var k := AcceptedIndices(cat, f)[0];
      assert Ids(cat)[k] == id;
      var spec := LookupSpec(cat, id);
      result := Ok(MatchOutcome(matches, ExactMatch, ExactMessage(id, spec.value.project, |rows.value|)));
    } else if |matches| > 1 {
      result := Ok(MatchOutcome(matches, Ambiguous, AmbiguousMessage(matches)));
    } else {
      var closest := FindClosestMatches(cat, f, 3);
      result := Ok(MatchOutcome([], NoMatch, NoMatchMessage(closest)));
    }
  }

  // ---------------------------------------------------------------------
  // Closeness ranking

  /** The closeness score: 3 for each equal dimension, 2 for a compatible
      breaker; access, mount and quantity are not scored. */
  function ScoreOf(f: Features, s: AssemblySpec): (score: int)
    ensures 0 <= score <= 11
    ensures score == 11 <==>
      && f.height == Some(s.height) && f.width == Some(s.width) && f.depth == Some(s.depth)
      && Present(f.breakerType) && BreakerCompatible(Upper(f.breakerType.value), Upper(s.breakerType))
  {
    (if f.height == Some(s.height) then 3 else 0)
    + (if f.width == Some(s.width) then 3 else 0)
    + (if f.depth == Some(s.depth) then 3 else 0)
    + (if Present(f.breakerType) && BreakerCompatible(Upper(f.breakerType.value), Upper(s.breakerType)) then 2 else 0)
  }

  /** Every record with its score, in table order. */
  function Scores(cat: seq<CatalogEntry>, f: Features): (r: seq<Scored>)
    ensures |r| == |cat|
  {
    seq(|cat|, i requires 0 <= i < |cat| => Scored(cat[i].id, ScoreOf(f, cat[i].spec)))
  }

  predicate Descending(s: seq<Scored>) {
    forall i, j :: 0 <= i < j < |s| ==> s[i].score >= s[j].score
  }

  /** The elements of `s` with score `v`, in order. */
  function WithScore(s: seq<Scored>, v: int): seq<Scored> {
    if s == [] then [] else (if s[0].score == v then [s[0]] else []) + WithScore(s[1..], v)
  }

  /** Places `x` in front of the first element scoring no more than it. */
  function Insert(x: Scored, s: seq<Scored>): (r: seq<Scored>)
    ensures |r| == |s| + 1
    ensures multiset(r) == multiset(s) + multiset{x}
  {
    if s == [] || s[0].score <= x.score then [x] + s
    else
      assert s == [s[0]] + s[1..];
      [s[0]] + Insert(x, s[1..])
  }

  /** `list.sort(key=score, reverse=True)`: descending and stable. */
  function SortByScore(s: seq<Scored>): (r: seq<Scored>)
    ensures |r| == |s|
    ensures multiset(r) == multiset(s)
  {
    if s == [] then []
    else
      assert s == [s[0]] + s[1..];
      Insert(s[0], SortByScore(s[1..]))
  }

  /** Inserting under a bound every element already keeps leaves it kept. */
  lemma {:induction false} InsertBounded(x: Scored, s: seq<Scored>, m: int)
    requires x.score <= m && forall j :: 0 <= j < |s| ==> s[j].score <= m
    ensures forall j :: 0 <= j < |s| + 1 ==> Insert(x, s)[j].score <= m
  {
    if s != [] && s[0].score > x.score {
      InsertBounded(x, s[1..], m);
      assert Insert(x, s) == [s[0]] + Insert(x, s[1..]);
    }
  }

  lemma {:induction false} InsertDescending(x: Scored, s: seq<Scored>)
    requires Descending(s)
    ensures Descending(Insert(x, s))
  {
    if s != [] && s[0].score > x.score {
      InsertDescending(x, s[1..]);
      InsertBounded(x, s[1..], s[0].score);
      assert Insert(x, s) == [s[0]] + Insert(x, s[1..]);
    }
  }

  /** The ranking is in descending order of score. */
  lemma {:induction false} SortDescending(s: seq<Scored>)
    ensures Descending(SortByScore(s))
  {
    if s != [] {
      SortDescending(s[1..]);
      InsertDescending(s[0], SortByScore(s[1..]));
    }
  }

  lemma WithScoreCons(x: Scored, s: seq<Scored>, v: int)
    ensures WithScore([x] + s, v) == (if x.score == v then [x] else []) + WithScore(s, v)
  {
    assert ([x] + s)[1..] == s;
  }

  lemma {:induction false} InsertWithScore(x: Scored, s: seq<Scored>, v: int)
    ensures WithScore(Insert(x, s), v) == (if x.score == v then [x] else []) + WithScore(s, v)
  {
    if s == [] || s[0].score <= x.score {
      WithScoreCons(x, s, v);
    } else {
      var rest := Insert(x, s[1..]);
      assert Insert(x, s) == [s[0]] + rest;
      InsertWithScore(x, s[1..], v);
      WithScoreCons(s[0], rest, v);
      WithScoreCons(s[0], s[1..], v);
      assert s == [s[0]] + s[1..];
    }
  }

  /** Stability: among records with the same score the ranking keeps table
      order. */
  lemma {:induction false} SortStable(s: seq<Scored>, v: int)
    ensures WithScore(SortByScore(s), v) == WithScore(s, v)
  {
    if s != [] {
      SortStable(s[1..], v);
      InsertWithScore(s[0], SortByScore(s[1..]), v);
    }
  }

  function Min(a: int, b: int): int { if a <= b then a else b }

  /** The top `n` of the ranking. */
  function Closest(cat: seq<CatalogEntry>, f: Features, n: nat): seq<Scored> {
    var sorted := SortByScore(Scores(cat, f));
    sorted[..Min(n, |sorted|)]
  }

  /** Nothing left out of the top `n` scores higher than anything in it. */
  lemma ClosestAreBest(cat: seq<CatalogEntry>, f: Features, n: nat)
    ensures var top := Closest(cat, f, n);
      forall x, y :: x in top && y in Scores(cat, f) && y !in top ==> x.score >= y.score
  {
    var sorted := SortByScore(Scores(cat, f));
    var top := Closest(cat, f, n);
    SortDescending(Scores(cat, f));
    forall x, y | x in top && y in Scores(cat, f) && y !in top
      ensures x.score >= y.score
    {
      assert y in multiset(sorted);
      var k :| 0 <= k < |sorted| && sorted[k] == y;
      var j :| 0 <= j < |top| && top[j] == x;
      assert forall i :: 0 <= i < |top| ==> top[i] == sorted[i] && top[i] in top;
      assert j < |top| <= k;
    }
  }

  lemma {:induction false} NoneWithScore(s: seq<Scored>, v: int)
    requires forall j :: 0 <= j < |s| ==> s[j].score != v
    ensures WithScore(s, v) == []
  {
    if s != [] {
      NoneWithScore(s[1..], v);
    }
  }

  /** In a descending sequence bounded by `v`, the elements scoring `v`
      form a prefix. */
  lemma {:induction false} LeadingBlock(s: seq<Scored>, v: int)
    requires Descending(s)
    requires forall j :: 0 <= j < |s| ==> s[j].score <= v
    ensures |WithScore(s, v)| <= |s| && WithScore(s, v) == s[..|WithScore(s, v)|]
  {
    if s != [] {
      if s[0].score == v {
        LeadingBlock(s[1..], v);
        var w := WithScore(s[1..], v);
        assert s[..|w| + 1] == [s[0]] + s[1..][..|w|];
      } else {
        NoneWithScore(s, v);
      }
    }
  }

  /** When no record scores above `v`, the first `n` offered are the first
      `n` records scoring `v`, in table order: ties are broken by position
      in the table. */
  lemma TopTiesInTableOrder(cat: seq<CatalogEntry>, f: Features, v: int, n: nat)
    requires forall i :: 0 <= i < |cat| ==> ScoreOf(f, cat[i].spec) <= v
    requires n <= |WithScore(Scores(cat, f), v)|
    ensures Closest(cat, f, n) == WithScore(Scores(cat, f), v)[..n]
  {
    TopTiesStable(Scores(cat, f), v, n);
  }

  /** The ranking of scores bounded by `v` starts with those scoring `v`,
      in their original order. */
  lemma TopTiesStable(sc: seq<Scored>, v: int, n: nat)
    requires forall j :: 0 <= j < |sc| ==> sc[j].score <= v
    requires n <= |WithScore(sc, v)|
    ensures n <= |SortByScore(sc)| && SortByScore(sc)[..n] == WithScore(sc, v)[..n]
  {
    var sorted := SortByScore(sc);
    SortedBounded(sc, v);
    SortDescending(sc);
    LeadingBlock(sorted, v);
    SortStable(sc, v);
    var w := WithScore(sorted, v);
    assert sorted[..n] == sorted[..|w|][..n];
  }

  /** Sorting keeps every score bounded by `v`. */
  lemma SortedBounded(sc: seq<Scored>, v: int)
    requires forall j :: 0 <= j < |sc| ==> sc[j].score <= v
    ensures forall j :: 0 <= j < |SortByScore(sc)| ==> SortByScore(sc)[j].score <= v
  {
    var sorted := SortByScore(sc);
    forall j | 0 <= j < |sorted|
      ensures sorted[j].score <= v
    {
      assert sorted[j] in multiset(sc);
    }
  }

  /** `_find_closest_matches`: score every record in table order, rank
      them, keep the first `topN`. */
  method FindClosestMatches(cat: seq<CatalogEntry>, f: Features, topN: nat) returns (closest: seq<Scored>)
    ensures closest == Closest(cat, f, topN)
    ensures |closest| == Min(topN, |cat|)
    ensures Descending(closest)
  {
    var scores: seq<Scored> := [];
    for i := 0 to |cat|
      invariant scores == Scores(cat, f)[..i]
    {
      scores := scores + [Scored(cat[i].id, ScoreOf(f, cat[i].spec))];
    }
    assert scores == Scores(cat, f);
    var sorted := SortByScore(scores);
    SortDescending(scores);
    closest := sorted[..Min(topN, |sorted|)];
  }

  // ---------------------------------------------------------------------
  // Bill of materials

  datatype Component = Component(partNumber: string, description: string, quantity: int, sequence: int)

  datatype Bom =
    | Bom(assemblyNumber: string, project: string, specifications: AssemblySpec,
          totalParts: int, components: seq<Component>)
    | NotFound(requested: string, available: seq<string>)

  /** One component line, absent columns falling back to "" and 0. */
  function ComponentOf(row: Row): (c: Component)
    ensures row.partNumber == Some(c.partNumber) || (row.partNumber == None && c.partNumber == "")
    ensures row.description == Some(c.description) || (row.description == None && c.description == "")
    ensures row.quantity == Some(c.quantity) || (row.quantity == None && c.quantity == 0)
    ensures row.sequence == Some(c.sequence) || (row.sequence == None && c.sequence == 0)
  {
    Component(row.partNumber.GetOr(""), row.description.GetOr(""), row.quantity.GetOr(0), row.sequence.GetOr(0))
  }

  /** `generate_bom`: an unknown number yields the not-found record with
      every known number; a known number whose specification is missing
      raises; otherwise one component per spreadsheet row, in order. */
  method GenerateBom(m: Matcher, id: string) returns (out: Outcome<Bom>)
    ensures LookupRows(m.assemblies, id).None? ==> out == Ok(NotFound(id, AssemblyIds(m.assemblies)))
    ensures LookupRows(m.assemblies, id).Some? && LookupSpec(m.specs, id).None? ==> out == Raised(id)
    ensures LookupRows(m.assemblies, id).Some? && LookupSpec(m.specs, id).Some? ==>
      var rows, spec := LookupRows(m.assemblies, id).value, LookupSpec(m.specs, id).value;
      && out.Ok? && out.value.Bom?
      && out.value.assemblyNumber == id
      && out.value.project == spec.project
      && out.value.specifications == spec
      && out.value.totalParts == |rows| == |out.value.components|
      && forall k :: 0 <= k < |rows| ==> out.value.components[k] == ComponentOf(rows[k])
  {
    var rows := LookupRows(m.assemblies, id);
    if rows.None? {
      return Ok(NotFound(id, AssemblyIds(m.assemblies)));
    }
    var spec := LookupSpec(m.specs, id);
    if spec.None? {
      return Raised(id);
    }
    var components: seq<Component> := [];
    for k := 0 to |rows.value|
      invariant |components| == k
      invariant forall j :: 0 <= j < k ==> components[j] == ComponentOf(rows.value[j])
    {
      components := components + [ComponentOf(rows.value[k])];
    }
    out := Ok(Bom(id, spec.value.project, spec.value, |rows.value|, components));
  }

  // ---------------------------------------------------------------------
  // Entry points

  /** The dict both entry points return. `features` is None for the empty
      dict of the error path. */
  datatype Report = Report(
    status: Status,
    matched: seq<string>,
    features: Option<Features>,
    bom: Option<Bom>,
    message: Message)

  /** What an entry point reports for a query: an error exactly when the
      single passing record has no spreadsheet rows; otherwise the
      normalised query, the status and numbers of `match_assembly`, and a
      BOM exactly on an exact match, built for the matched number. */
  predicate ReportFor(m: Matcher, query: Features, report: Report) {
    var f := NormalizedQuery(query);
    var acc := AcceptedIds(m.specs, f);
    var missing := |acc| == 1 && acc[0] !in AssemblyIds(m.assemblies);
    && (report.status == Error <==> missing)
    && (missing ==> report == Report(Error, [], None, None, ErrorMessage(acc[0])))
    && (!missing ==> && report.features == Some(f)
                     && report.status == StatusFor(|acc|)
                     && report.matched == acc)
    && (report.bom.Some? <==> report.status == ExactMatch)
    && (report.status == ExactMatch ==>
          && |acc| == 1
          && LookupRows(m.assemblies, acc[0]).Some?
          && LookupSpec(m.specs, acc[0]).Some?
          && report.bom == Some(BomOf(acc[0], LookupSpec(m.specs, acc[0]).value,
                                      LookupRows(m.assemblies, acc[0]).value)))
  }

  /** The BOM `generate_bom` builds for a known number with a known record. */
  function BomOf(id: string, spec: AssemblySpec, rows: seq<Row>): (b: Bom)
    ensures b.Bom? && b.assemblyNumber == id && b.specifications == spec && b.project == spec.project
    ensures b.totalParts == |rows| == |b.components|
    ensures forall k :: 0 <= k < |rows| ==> b.components[k] == ComponentOf(rows[k])
  {
    Bom(id, spec.project, spec, |rows|, seq(|rows|, k requires 0 <= k < |rows| => ComponentOf(rows[k])))
  }

  /** The part both entry points share once the features are extracted. */
  method Respond(m: Matcher, query: Features) returns (report: Report)
    ensures ReportFor(m, query, report)
  {
    var f, out := MatchAssembly(m, query);
    if out.Raised? {
      return Report(Error, [], None, None, ErrorMessage(out.missingKey));
    }
    var o := out.value;
    var bom: Option<Bom> := None;
    if o.status == ExactMatch && o.ids != [] {
      var b := GenerateBom(m, o.ids[0]);
      var rows, spec := LookupRows(m.assemblies, o.ids[0]).value, LookupSpec(m.specs, o.ids[0]).value;
      assert b.value.components == BomOf(o.ids[0], spec, rows).components;
      bom := Some(b.value);
    }
    report := Report(o.status, o.ids, Some(f), bom, o.message);
  }

  /** `match_quote_to_assembly` */
  method MatchQuoteToAssembly(m: Matcher, q: Quote) returns (report: Report)
    ensures ReportFor(m, ExtractFromQuote(q), report)
  {
    report := Respond(m, ExtractFromQuote(q));
  }

  /** `match_from_user_input` */
  method MatchFromUserInput(m: Matcher, text: string) returns (report: Report)
    ensures ReportFor(m, ExtractFromText(text), report)
  {
    report := Respond(m, ExtractFromText(text));
  }
}
