/** Facts about the ten hard-coded records: which queries single out one
    assembly, which pairs cannot be told apart, and what the ranking offers
    when nothing passes. */
module CatalogFacts {
  import opened Optional
  import opened Text
  import opened Catalog
  import opened Breakers
  import opened Features
  import opened Matcher

  predicate Increasing(a: seq<int>) {
    forall j, k :: 0 <= j < k < |a| ==> a[j] < a[k]
  }

  /** Two increasing sequences with the same elements are equal. */
  lemma {:induction false} IncreasingUnique(a: seq<int>, b: seq<int>)
    requires Increasing(a) && Increasing(b)
    requires forall x :: x in a <==> x in b
    ensures a == b
  {
    if a != [] { assert a[0] in a; }
    if b != [] { assert b[0] in b; }
    if a != [] {
      assert a[0] in b && b[0] in a;
      assert a[0] == b[0];
      forall x ensures x in a[1..] <==> x in b[1..] {
        assert x in a[1..] <==> x in a && x != a[0];
        assert x in b[1..] <==> x in b && x != b[0];
      }
      IncreasingUnique(a[1..], b[1..]);
      assert a == [a[0]] + a[1..] && b == [b[0]] + b[1..];
    }
  }

  /** The passing positions are pinned down by which records pass. */
  lemma AcceptedIndicesAre(cat: seq<CatalogEntry>, f: Features, r: seq<int>)
    requires Increasing(r)
    requires forall j :: 0 <= j < |r| ==> 0 <= r[j] < |cat|
    requires forall i :: 0 <= i < |cat| ==> (i in r <==> FeaturesMatch(f, cat[i].spec))
    ensures AcceptedIndices(cat, f) == r
  {
    IncreasingUnique(AcceptedIndices(cat, f), r);
  }

  /** The query built from a record's own values; 'multiple' leaves the
      quantity out. */
  function SelfQuery(s: AssemblySpec): (q: Features)
    ensures FeaturesMatch(q, s)
  {
    Features(Some(s.height), Some(s.width), Some(s.depth), Some(s.breakerType),
             if s.breakerQuantity.Count? then Some(s.breakerQuantity.n) else None,
             Some(s.access), Some(s.mount))
  }

  /** Every record's breaker is a canonical name, so `match_assembly`
      leaves a self-query unchanged. */
  lemma SelfQueryNormalized(k: int)
    requires 0 <= k < 10
    ensures NormalizedQuery(SelfQuery(Specs()[k].spec)) == SelfQuery(Specs()[k].spec)
  {
    CanonicalIsFixed(Specs()[k].spec.breakerType);
  }

  /** With no feature given every record passes, so the answer is
      ambiguous over the whole table, in declaration order. */
  lemma EmptyQueryAmbiguous()
    ensures AcceptedIds(Specs(), NoFeatures) == Ids(Specs())
    ensures StatusFor(|AcceptedIds(Specs(), NoFeatures)|) == Ambiguous
  {
    EmptyQueryKeepsAll(Specs());
  }

  /** In any table the empty query keeps every assembly number, in order. */
  lemma EmptyQueryKeepsAll(cat: seq<CatalogEntry>)
    ensures AcceptedIds(cat, NoFeatures) == Ids(cat)
  {
    var all := seq(|cat|, i requires 0 <= i < |cat| => i);
    forall i | 0 <= i < |cat|
      ensures i in all && FeaturesMatch(NoFeatures, cat[i].spec)
    {
      assert all[i] == i;
    }
    AcceptedIndicesAre(cat, NoFeatures, all);
  }

  /** Two records that differ in a dimension, in the spelling length of
      access or mount, or in two definite quantities. */
  predicate PlainlyDiffer(s: AssemblySpec, t: AssemblySpec) {
    || s.height != t.height || s.width != t.width || s.depth != t.depth
    || |s.access| != |t.access| || |s.mount| != |t.mount|
    || (s.breakerQuantity.Count? && t.breakerQuantity.Count? && s.breakerQuantity != t.breakerQuantity)
  }

  /** Every field of the record is truthy, so its self-query constrains
      all of them. */
  predicate Filled(s: AssemblySpec) {
    && s.height != "" && s.width != "" && s.depth != "" && s.breakerType != ""
    && s.access != "" && s.mount != ""
    && (s.breakerQuantity.Count? ==> s.breakerQuantity.n != 0)
  }

  lemma TableFilled(k: int)
    requires 0 <= k < 10
    ensures Filled(Specs()[k].spec)
  {
  }

  /** A self-query rejects every record that plainly differs from its own. */
  lemma SelfQueryRejects(s: AssemblySpec, t: AssemblySpec)
    requires Filled(s) && PlainlyDiffer(s, t)
    ensures !FeaturesMatch(SelfQuery(s), t)
  {
  }

  /** Records 201 and 202 are the only pair that does not plainly differ. */
  lemma TablePlainlyDiffers(k: int, i: int)
    requires 0 <= k < 10 && 0 <= i < 10 && k != i && !(k in {3, 4} && i in {3, 4})
    ensures PlainlyDiffer(Specs()[k].spec, Specs()[i].spec)
  {
  }

  /** A self-query of any record other than 201 and 202 passes that record
      alone: an exact match. */
  lemma SelfQueryExact(k: int)
    requires 0 <= k < 10 && k != 3 && k != 4
    ensures AcceptedIds(Specs(), SelfQuery(Specs()[k].spec)) == [Specs()[k].id]
  {
    var cat := Specs();
    var q := SelfQuery(cat[k].spec);
    forall i | 0 <= i < 10 && i != k
      ensures !FeaturesMatch(q, cat[i].spec)
    {
      TableFilled(k);
      TablePlainlyDiffers(k, i);
      SelfQueryRejects(cat[k].spec, cat[i].spec);
    }
    AcceptedIndicesAre(cat, q, [k]);
  }

  /** Among the fields the matcher reads, records 201 and 202 differ only in
      the Emax model, which the family test ignores: a self-query of either
      passes both, so neither can be singled out. */
  lemma SelfQueryAmbiguous(k: int)
    requires k == 3 || k == 4
    ensures AcceptedIds(Specs(), SelfQuery(Specs()[k].spec)) == [Specs()[3].id, Specs()[4].id]
    ensures StatusFor(|AcceptedIds(Specs(), SelfQuery(Specs()[k].spec))|) == Ambiguous
  {
    var cat := Specs();
    var q := SelfQuery(cat[k].spec);
    PairPassesSelfQuery(k);
    OthersRejectPairSelfQuery(k);
    AcceptedIndicesAre(cat, q, [3, 4]);
  }

  /** Both 201 and 202 pass the self-query of either. */
  lemma PairPassesSelfQuery(k: int)
    requires k == 3 || k == 4
    ensures FeaturesMatch(SelfQuery(Specs()[k].spec), Specs()[3].spec)
    ensures FeaturesMatch(SelfQuery(Specs()[k].spec), Specs()[4].spec)
  {
    var cat := Specs();
    CompatibleIffSameFamily(cat[k].spec.breakerType, Emax62);
    CompatibleIffSameFamily(cat[k].spec.breakerType, Emax22);
  }

  /** Every other record rejects the self-query of 201 or 202. */
  lemma OthersRejectPairSelfQuery(k: int)
    requires k == 3 || k == 4
    ensures forall i :: 0 <= i < 10 && i != 3 && i != 4 ==>
      !FeaturesMatch(SelfQuery(Specs()[k].spec), Specs()[i].spec)
  {
    var cat := Specs();
    forall i | 0 <= i < 10 && i != 3 && i != 4
      ensures !FeaturesMatch(SelfQuery(cat[k].spec), cat[i].spec)
    {
      TableFilled(k);
      TablePlainlyDiffers(k, i);
      SelfQueryRejects(cat[k].spec, cat[i].spec);
    }
  }

  /** 90 x 40 x 60 with an Emax 6.2, front access only, fixed mount. */
  const FrontOnlyFixed62: Features :=
    Features(Some("90"), Some("40"), Some("60"), Some(Emax62), None, Some("Front only"), Some("Fixed"))

  /** Every record is rejected: the six 90 x 40 x 60 records have rear
      access or a draw-out mount, the other four differ in a dimension. */
  lemma FrontOnlyFixed62NoMatch()
    ensures AcceptedIds(Specs(), FrontOnlyFixed62) == []
    ensures StatusFor(|AcceptedIds(Specs(), FrontOnlyFixed62)|) == NoMatch
  {
    var cat := Specs();
    var q := FrontOnlyFixed62;
    forall i | 0 <= i < 10
      ensures !FeaturesMatch(q, cat[i].spec)
    {
      assert |Lower(q.access.value)| == 10 && |Lower(q.mount.value)| == 5;
    }
    AcceptedIndicesAre(cat, q, []);
  }

  /** A record with the query's three dimensions and a breaker of the same
      family gets the full score. */
  lemma FullScore(f: Features, s: AssemblySpec)
    requires f.height == Some(s.height) && f.width == Some(s.width) && f.depth == Some(s.depth)
    requires f.breakerType.Some? && IsCanonical(f.breakerType.value) && IsCanonical(s.breakerType)
    requires Family(f.breakerType.value) == Family(s.breakerType)
    ensures ScoreOf(f, s) == 11
  {
    CompatibleIffSameFamily(f.breakerType.value, s.breakerType);
  }

  /** When the first three records get the full score, they are the three
      offered. */
  lemma ClosestThree(cat: seq<CatalogEntry>, f: Features)
    requires |cat| >= 3
    requires ScoreOf(f, cat[0].spec) == 11 && ScoreOf(f, cat[1].spec) == 11 && ScoreOf(f, cat[2].spec) == 11
    ensures Closest(cat, f, 3) == [Scored(cat[0].id, 11), Scored(cat[1].id, 11), Scored(cat[2].id, 11)]
  {
    var sc := Scores(cat, f);
    FirstThreeTied(sc, 11);
    TopTiesInTableOrder(cat, f, 11, 3);
    assert sc[..3] == [sc[0], sc[1], sc[2]];
  }

  lemma FirstThreeTied(s: seq<Scored>, v: int)
    requires |s| >= 3 && s[0].score == v && s[1].score == v && s[2].score == v
    ensures |WithScore(s, v)| >= 3 && WithScore(s, v)[..3] == s[..3]
  {
    assert s == [s[0]] + s[1..] && s[1..] == [s[1]] + s[2..] && s[2..] == [s[2]] + s[3..];
    WithScoreCons(s[0], s[1..], v);
    WithScoreCons(s[1], s[2..], v);
    WithScoreCons(s[2], s[3..], v);
  }

  /** ... and the three offered instead are 101, 102 and 103, each with the
      full score of 11 (records 201 to 203 score 11 too but come later). */
  lemma FrontOnlyFixed62Closest()
    ensures Closest(Specs(), FrontOnlyFixed62, 3) ==
      [Scored("123456-0100-101", 11), Scored("123456-0100-102", 11), Scored("123456-0100-103", 11)]
  {
    var cat := Specs();
    var q := FrontOnlyFixed62;
    FullScore(q, cat[0].spec);
    FullScore(q, cat[1].spec);
    FullScore(q, cat[2].spec);
    ClosestThree(cat, q);
  }
}
