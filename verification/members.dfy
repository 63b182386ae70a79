/** Member records and the normalisation that turns a raw store document into
    the canonical record the directory works with. */
module Members {
  import opened Wrappers
  import opened JsValues

  /** A record is a bag of named fields, as a store document is. */
  type Record = map<string, Value>

  /** A store document as the directory reads it: its key and its data, which
      the store reports as absent for a document that does not exist. */
  datatype RawDoc = RawDoc(id: string, data: Option<Record>)

  /** `u.field`: an absent key reads as undefined. */
  function Get(u: Record, field: string): Value {
    if field in u then u[field] else Undefined
  }

  /** `d.data() || {}` */
  function DataOf(d: RawDoc): Record {
    match d.data
    case Some(m) => m
    case None => map[]
  }

  /** Alias chains, highest priority first. */
  const GradYearAliases: seq<string> :=
    ["gradYear", "graduateYear", "yearToGraduate", "year_to_graduate", "graduationYear", "grad_year"]
  const CollegeAliases: seq<string> := ["college", "collegeName", "college_name", "institution"]
  const ProfessionAliases: seq<string> := ["profession", "job", "occupation", "title"]
  const BatchAliases: seq<string> := ["batch", "batchYear", "yearBatch", "batch_name"]
  const LocationAliases: seq<string> := ["location", "city"]
  const CompanyAliases: seq<string> := ["company", "organization"]

  /** The keys normalisation overwrites with canonical values. */
  const CanonicalKeys: set<string> := {"gradYear", "college", "profession", "batch", "location", "company"}

  /** Alias `i` is the first one in the chain whose value is neither null nor undefined. */
  predicate FirstPresent(data: Record, aliases: seq<string>, i: int) {
    && 0 <= i < |aliases|
    && !IsNullish(Get(data, aliases[i]))
    && forall j :: 0 <= j < i ==> IsNullish(Get(data, aliases[j]))
  }

  /** No alias in the chain carries a value other than null or undefined. */
  predicate NonePresent(data: Record, aliases: seq<string>) {
    forall j :: 0 <= j < |aliases| ==> IsNullish(Get(data, aliases[j]))
  }

  /** `data[a0] ?? data[a1] ?? ... ?? fallback` */
  function Coalesce(data: Record, aliases: seq<string>, fallback: Value): (r: Value)
    ensures NonePresent(data, aliases) ==> r == fallback
    ensures forall i :: FirstPresent(data, aliases, i) ==> r == Get(data, aliases[i])
    ensures r == fallback || exists i :: 0 <= i < |aliases| && r == Get(data, aliases[i])
  {
    if |aliases| == 0 then fallback
    else
      var v := Get(data, aliases[0]);
      if !IsNullish(v) then v
      else
        var r := Coalesce(data, aliases[1..], fallback);
        assert forall i :: FirstPresent(data, aliases, i) ==> i > 0 && FirstPresent(data, aliases[1..], i - 1);
        assert forall i :: 0 <= i < |aliases[1..]| ==> aliases[1..][i] == aliases[i + 1];
        r
  }

  /** The canonical graduation year: the chosen alias value, stringified. */
  function GradYearOf(data: Record): (r: Value)
    ensures forall i :: FirstPresent(data, GradYearAliases, i) ==>
      r == Str(ToJsString(Get(data, GradYearAliases[i])))
    ensures NonePresent(data, GradYearAliases) ==> r == Str("")
  {
    var rawGrad := Coalesce(data, GradYearAliases, Str(""));
    if !IsNullish(rawGrad) then Str(ToJsString(rawGrad)) else Str("")
  }

  /** A canonical attribute: the chosen alias value, or `fallback` when that value is falsy. */
  function ResolveOr(data: Record, aliases: seq<string>, fallback: Value): (r: Value)
    ensures forall i :: FirstPresent(data, aliases, i) ==>
      r == (var v := Get(data, aliases[i]); if Truthy(v) then v else fallback)
    ensures NonePresent(data, aliases) ==> r == fallback
    ensures Truthy(fallback) ==> Truthy(r)
    ensures (forall j :: 0 <= j < |aliases| ==> !Truthy(Get(data, aliases[j]))) ==> r == fallback
  {
    OrElse(Coalesce(data, aliases, Str("")), fallback)
  }

  /** The normalised record of one document: `{id: d.id, ...data, <canonical fields>}`. */
  function Normalize(d: RawDoc): Record {
    var data := DataOf(d);
    (map["id" := Str(d.id)] + data)
      ["gradYear" := GradYearOf(data)]
      ["college" := ResolveOr(data, CollegeAliases, Str(""))]
      ["profession" := ResolveOr(data, ProfessionAliases, Str(""))]
      ["batch" := ResolveOr(data, BatchAliases, Str(""))]
      ["location" := ResolveOr(data, LocationAliases, Str("-"))]
      ["company" := ResolveOr(data, CompanyAliases, Str("-"))]
  }

  /** The normalised record keeps every raw field and adds `id` and the six
      canonical fields; the raw data's own `id` wins over the document key. */
  lemma NormalizeShape(d: RawDoc)
    ensures Normalize(d).Keys == DataOf(d).Keys + {"id"} + CanonicalKeys
    ensures forall k :: k in DataOf(d) && k !in CanonicalKeys ==> Normalize(d)[k] == DataOf(d)[k]
    ensures "id" !in DataOf(d) ==> Normalize(d)["id"] == Str(d.id)
  {
  }

  /** Where each canonical field of a normalised record comes from; the
      contracts of `GradYearOf` and `ResolveOr` say what that value is. */
  lemma NormalizedFields(d: RawDoc)
    ensures Normalize(d)["gradYear"] == GradYearOf(DataOf(d))
    ensures Normalize(d)["college"] == ResolveOr(DataOf(d), CollegeAliases, Str(""))
    ensures Normalize(d)["profession"] == ResolveOr(DataOf(d), ProfessionAliases, Str(""))
    ensures Normalize(d)["batch"] == ResolveOr(DataOf(d), BatchAliases, Str(""))
    ensures Normalize(d)["location"] == ResolveOr(DataOf(d), LocationAliases, Str("-"))
    ensures Normalize(d)["company"] == ResolveOr(DataOf(d), CompanyAliases, Str("-"))
  {
    // the solver separates these keys only by a character they differ in
    assert "gradYear"[0] != "location"[0];
    assert "college"[2] != "company"[2];
    var data := DataOf(d);
    var m0 := map["id" := Str(d.id)] + data;
    var m1 := m0["gradYear" := GradYearOf(data)];
    var m2 := m1["college" := ResolveOr(data, CollegeAliases, Str(""))];
    var m3 := m2["profession" := ResolveOr(data, ProfessionAliases, Str(""))];
    var m4 := m3["batch" := ResolveOr(data, BatchAliases, Str(""))];
    var m5 := m4["location" := ResolveOr(data, LocationAliases, Str("-"))];
    var m6 := m5["company" := ResolveOr(data, CompanyAliases, Str("-"))];
    assert Normalize(d) == m6;
    assert m6["gradYear"] == m1["gradYear"];
    assert m6["college"] == m2["college"];
    assert m6["profession"] == m3["profession"];
    assert m6["batch"] == m4["batch"];
  }

  /** Every normalised record has a textual graduation year and a truthy
      location and company. */
  lemma NormalizedInvariant(d: RawDoc)
    ensures Normalize(d)["gradYear"].Str?
    ensures Truthy(Normalize(d)["location"]) && Truthy(Normalize(d)["company"])
  {
    NormalizedFields(d);
  }

  /** The two canonical fields whose fallback is the placeholder "-", each
      with its alias chain. */
  predicate DashField(field: string, aliases: seq<string>) {
    || (field == "location" && aliases == LocationAliases)
    || (field == "company" && aliases == CompanyAliases)
  }

  /** A document with no truthy location (or company) alias gets the
      placeholder "-" in that field. */
  lemma DashPlaceholder(d: RawDoc, field: string, aliases: seq<string>)
    requires DashField(field, aliases)
    requires forall j :: 0 <= j < |aliases| ==> !Truthy(Get(DataOf(d), aliases[j]))
    ensures Get(Normalize(d), field) == Str("-")
  {
    NormalizedFields(d);
    NormalizeShape(d);
  }

  /** A key that neither the document nor normalisation sets reads as undefined. */
  lemma NormalizedAbsent(d: RawDoc, k: string)
    requires k !in DataOf(d) && k != "id" && k !in CanonicalKeys
    ensures Get(Normalize(d), k) == Undefined
  {
  }

  /** `snap.docs.map(...)` */
  function NormalizeAll(docs: seq<RawDoc>): (r: seq<Record>)
    ensures |r| == |docs|
    ensures forall i :: 0 <= i < |docs| ==> r[i] == Normalize(docs[i])
  {
    seq(|docs|, i requires 0 <= i < |docs| => Normalize(docs[i]))
  }

  /** A present but empty `location` stops the chain: `city` is not consulted
      and the record shows the placeholder. */
  lemma EmptyLocationIgnoresCity(d: RawDoc, city: string)
    requires Get(DataOf(d), "location") == Str("")
    requires Get(DataOf(d), "city") == Str(city)
    ensures Normalize(d)["location"] == Str("-")
  {
    NormalizedFields(d);
    assert FirstPresent(DataOf(d), LocationAliases, 0);
  }

  /** A present empty `gradYear` stops the chain even when a later alias holds a year. */
  lemma EmptyGradYearWins(d: RawDoc, later: Value)
    requires Get(DataOf(d), "gradYear") == Str("")
    requires Get(DataOf(d), "graduateYear") == later
    ensures Normalize(d)["gradYear"] == Str("")
  {
    NormalizedFields(d);
    assert FirstPresent(DataOf(d), GradYearAliases, 0);
  }

  lemma GradYearOfExamples()
    ensures GradYearOf(map["gradYear" := Str("2020")]) == Str("2020")
    ensures GradYearOf(map["graduateYear" := Str("2019")]) == Str("2019")
    ensures GradYearOf(map["yearToGraduate" := Num(2018)]) == Str("2018")
  {
    assert FirstPresent(map["gradYear" := Str("2020")], GradYearAliases, 0);
    assert FirstPresent(map["graduateYear" := Str("2019")], GradYearAliases, 1);
    assert FirstPresent(map["yearToGraduate" := Num(2018)], GradYearAliases, 2);
    assert NatToDecimal(2018) == "2018" by {
      assert NatToDecimal(2) == "2";
      assert NatToDecimal(20) == "20";
      assert NatToDecimal(201) == "201";
    }
  }

  /** The three documents of the graduation-year example: each carries its year
      under a different alias and reads back the year it carries. */
  lemma GradYearAliasExample()
    ensures Normalize(RawDoc("a", Some(map["gradYear" := Str("2020")])))["gradYear"] == Str("2020")
    ensures Normalize(RawDoc("b", Some(map["graduateYear" := Str("2019")])))["gradYear"] == Str("2019")
    ensures Normalize(RawDoc("c", Some(map["yearToGraduate" := Num(2018)])))["gradYear"] == Str("2018")
  {
    NormalizedFields(RawDoc("a", Some(map["gradYear" := Str("2020")])));
    NormalizedFields(RawDoc("b", Some(map["graduateYear" := Str("2019")])));
    NormalizedFields(RawDoc("c", Some(map["yearToGraduate" := Num(2018)])));
    GradYearOfExamples();
  }
}
