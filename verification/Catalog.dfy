/** The two tables a matcher is built from: the hard-coded assembly
    specifications (ten records, in declaration order) and the spreadsheet
    rows grouped by assembly number. */
module Catalog {
  import opened Optional

  /** Breaker quantity of a catalog record: a count, or the token 'multiple'. */
  datatype Quantity = Count(n: int) | Multiple

  datatype AssemblySpec = AssemblySpec(
    height: string,
    width: string,
    depth: string,
    breakerType: string,
    breakerQuantity: Quantity,
    mount: string,
    access: string,
    project: string)

  datatype CatalogEntry = CatalogEntry(id: string, spec: AssemblySpec)

  /** One spreadsheet record. A field is None when its column is absent and
      `dict.get` falls back to its default. */
  datatype Row = Row(
    partNumber: Option<string>,
    description: Option<string>,
    quantity: Option<int>,
    sequence: Option<int>)

  /** The rows sharing one 'Assembly Number', in sheet order. */
  datatype Assembly = Assembly(id: string, rows: seq<Row>)

  /** The ten hard-coded specification records, in declaration order. */
  function Specs(): (r: seq<CatalogEntry>)
    ensures |r| == 10
  {
    [ CatalogEntry("123456-0100-101", AssemblySpec("90", "40", "60", "ABB SACE Emax 6.2", Count(1), "Fixed", "Front and rear", "UL891-S41A Section 101")),
      CatalogEntry("123456-0100-102", AssemblySpec("90", "40", "60", "ABB SACE Emax 2.2", Count(3), "Fixed", "Front and rear", "UL891-S41A Section 102")),
      CatalogEntry("123456-0100-103", AssemblySpec("90", "40", "60", "ABB SACE Emax 2.2", Count(2), "Fixed", "Front and rear", "UL891-S41A Section 103")),
      CatalogEntry("123456-0100-201", AssemblySpec("90", "40", "60", "ABB SACE Emax 6.2", Count(1), "Drawout", "Front only", "UL891-S41B Section 101")),
      CatalogEntry("123456-0100-202", AssemblySpec("90", "40", "60", "ABB SACE Emax 2.2", Count(1), "Drawout", "Front only", "UL891-S41B Section 102")),
      CatalogEntry("123456-0100-203", AssemblySpec("90", "40", "60", "ABB SACE Emax 2.2", Count(2), "Drawout", "Front only", "UL891-S41B Section 103")),
      CatalogEntry("123456-0100-204", AssemblySpec("90", "42", "60", "ABB SACE Tmax", Multiple, "Fixed", "Front only", "UL891-S41B Section 104")),
      CatalogEntry("123456-0100-301", AssemblySpec("90", "30", "48", "ABB SACE Emax 2.2", Count(1), "Drawout", "Front and rear", "UL891-S4S1 Section 101")),
      CatalogEntry("123456-0100-302", AssemblySpec("90", "42", "48", "ABB SACE Tmax", Multiple, "Fixed", "Front and rear", "UL891-S4S1 Section 102")),
      CatalogEntry("123456-0100-401", AssemblySpec("78", "42", "33", "Square D", Multiple, "Fixed", "Front only", "400kW GVX Section 101"))
    ]
  }

  function Ids(cat: seq<CatalogEntry>): (r: seq<string>)
    ensures |r| == |cat|
  {
    seq(|cat|, i requires 0 <= i < |cat| => cat[i].id)
  }

  predicate Distinct(ids: seq<string>) {
    forall i, j :: 0 <= i < j < |ids| ==> ids[i] != ids[j]
  }

  /** The dictionary literal has ten different keys, so no record shadows
      another. */
  lemma SpecIdsDistinct()
    ensures Distinct(Ids(Specs()))
  {
  }

  /** `assembly_specs[id]`, None standing for the KeyError. */
  function LookupSpec(cat: seq<CatalogEntry>, id: string): (r: Option<AssemblySpec>)
    ensures r.Some? <==> id in Ids(cat)
    ensures r.Some? ==> exists i :: 0 <= i < |cat| && cat[i].id == id && cat[i].spec == r.value
  {
    if cat == [] then None
    else if cat[0].id == id then
      assert Ids(cat)[0] == id;
      Some(cat[0].spec)
    else
      var r := LookupSpec(cat[1..], id);
      assert Ids(cat) == [cat[0].id] + Ids(cat[1..]);
      if r.Some? then
        ghost var i :| 0 <= i < |cat[1..]| && cat[1..][i].id == id && cat[1..][i].spec == r.value;
        assert cat[i + 1].id == id;
        r
      else r
  }

  function AssemblyIds(parts: seq<Assembly>): (r: seq<string>)
    ensures |r| == |parts|
  {
    seq(|parts|, i requires 0 <= i < |parts| => parts[i].id)
  }

  /** `assemblies[id]['components']`, None standing for the KeyError. */
  function LookupRows(parts: seq<Assembly>, id: string): (r: Option<seq<Row>>)
    ensures r.Some? <==> id in AssemblyIds(parts)
    ensures r.Some? ==> exists i :: 0 <= i < |parts| && parts[i].id == id && parts[i].rows == r.value
  {
    if parts == [] then None
    else if parts[0].id == id then
      assert AssemblyIds(parts)[0] == id;
      Some(parts[0].rows)
    else
      var r := LookupRows(parts[1..], id);
      assert AssemblyIds(parts) == [parts[0].id] + AssemblyIds(parts[1..]);
      if r.Some? then
        ghost var i :| 0 <= i < |parts[1..]| && parts[1..][i].id == id && parts[1..][i].rows == r.value;
        assert parts[i + 1].id == id;
        r
      else r
  }
}
