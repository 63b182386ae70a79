/** The search step of `applyFilters` exactly as written, with the error it
    raises: each searched field is read as `(u.field || "").toLowerCase()`,
    and `toLowerCase` does not exist on a truthy number or boolean, so such a
    value makes the whole filter throw. Normalisation keeps the type of a
    college, profession, batch, location or company value (`rawBatch || ""`
    leaves a numeric batch a number), so a document storing its batch as a
    number reaches this path. `Filtering.ApplyFilters` is the corrected
    search, which reads every field through `LowerKey` as the column sort does. */
module SearchAsWritten {
  import opened Wrappers
  import opened JsValues
  import opened Members
  import opened Filtering

  const NotAFunction: string := "TypeError: toLowerCase is not a function"

  /** `(v || "").toLowerCase().includes(q)` */
  function FieldTestAsWritten(v: Value, q: string): Result<bool> {
    var w := OrElse(v, Str(""));
    if w.Str? then Success(Includes(Lower(w.s), q)) else Failure(NotAFunction)
  }

  /** The `||` chain of field tests: stops at the first hit or the first throw. */
  function SearchHitAsWritten(q: string, u: Record, fields: seq<string>): Result<bool>
    decreases |fields|
  {
    if |fields| == 0 then Success(false)
    else
      match FieldTestAsWritten(Get(u, fields[0]), q)
      case Failure(e) => Failure(e)
      case Success(hit) => if hit then Success(true) else SearchHitAsWritten(q, u, fields[1..])
  }

  /** `data.filter(...)` with the search callback: the first record whose test
      throws aborts the whole filter. */
  function SearchStepAsWritten(s: seq<Record>, q: string): Result<seq<Record>>
    decreases |s|
  {
    if |s| == 0 then Success([])
    else
      match SearchHitAsWritten(q, s[0], SearchFields)
      case Failure(e) => Failure(e)
      case Success(hit) =>
        match SearchStepAsWritten(s[1..], q)
        case Failure(e) => Failure(e)
        case Success(rest) => Success((if hit then [s[0]] else []) + rest)
  }

  /** `applyFilters` as written. */
  function ApplyFiltersAsWritten(users: seq<Record>, c: Criteria): Result<seq<Record>> {
    if Trim(c.search) != "" then
      match SearchStepAsWritten(users, Lower(c.search))
      case Failure(e) => Failure(e)
      case Success(d) => Success(ApplyStages(d, EqualityStages(c)))
    else
      Success(ApplyStages(users, EqualityStages(c)))
  }

  /** A value the as-written search can read: a string, or anything falsy. */
  predicate Readable(v: Value) {
    v.Str? || !Truthy(v)
  }

  predicate SearchableFields(u: Record, fields: seq<string>) {
    forall i :: 0 <= i < |fields| ==> Readable(Get(u, fields[i]))
  }

  lemma FieldTestAgrees(v: Value, q: string)
    ensures Readable(v) ==> FieldTestAsWritten(v, q) == Success(Includes(LowerKey(v), q))
    ensures !Readable(v) ==> FieldTestAsWritten(v, q) == Failure(NotAFunction)
  {
  }

  lemma {:induction false} SearchHitAgrees(q: string, u: Record, fields: seq<string>)
    requires SearchableFields(u, fields)
    ensures SearchHitAsWritten(q, u, fields) == Success(AnyFieldHit(q, u, fields))
    decreases |fields|
  {
    if |fields| > 0 {
      FieldTestAgrees(Get(u, fields[0]), q);
      assert SearchableFields(u, fields[1..]) by {
        assert forall i :: 0 <= i < |fields[1..]| ==> fields[1..][i] == fields[i + 1];
      }
      SearchHitAgrees(q, u, fields[1..]);
      assert AnyFieldHit(q, u, fields) <==>
        Includes(LowerKey(Get(u, fields[0])), q) || AnyFieldHit(q, u, fields[1..]) by {
        if AnyFieldHit(q, u, fields) {
          var i :| 0 <= i < |fields| && Includes(LowerKey(Get(u, fields[i])), q);
          if i > 0 { assert fields[1..][i - 1] == fields[i]; }
        }
        if AnyFieldHit(q, u, fields[1..]) {
          var i :| 0 <= i < |fields[1..]| && Includes(LowerKey(Get(u, fields[1..][i])), q);
          assert fields[1..][i] == fields[i + 1];
        }
      }
    }
  }

  lemma {:induction false} SearchStepAgrees(s: seq<Record>, search: string)
    requires forall u :: u in s ==> SearchableFields(u, SearchFields)
    ensures SearchStepAsWritten(s, Lower(search)) == Success(Keep(s, SearchStage(search)))
    decreases |s|
  {
    if |s| > 0 {
      SearchHitAgrees(Lower(search), s[0], SearchFields);
      assert forall u :: u in s[1..] ==> u in s;
      SearchStepAgrees(s[1..], search);
    }
  }

  /** On records whose searched fields are all strings (or falsy) the code as
      written and the corrected filter give the same list. */
  lemma AsWrittenAgreesOnText(users: seq<Record>, c: Criteria)
    requires forall u :: u in users ==> SearchableFields(u, SearchFields)
    ensures ApplyFiltersAsWritten(users, c) == Success(ApplyFilters(users, c))
  {
    if Trim(c.search) != "" {
      SearchStepAgrees(users, c.search);
      assert ActiveStages(c) == [SearchStage(c.search)] + EqualityStages(c);
    } else {
      assert ActiveStages(c) == EqualityStages(c);
    }
  }

  /** The stored document that shows the discrepancy: a member whose batch is
      stored as the number 2020 under the `batchYear` alias. */
  const NumericBatchDoc: RawDoc := RawDoc("m1", Some(map["batchYear" := Num(2020)]))

  lemma NumericBatchFields(data: Record)
    requires data == map["batchYear" := Num(2020)]
    ensures GradYearOf(data) == Str("")
    ensures ResolveOr(data, CollegeAliases, Str("")) == Str("")
    ensures ResolveOr(data, ProfessionAliases, Str("")) == Str("")
    ensures ResolveOr(data, BatchAliases, Str("")) == Num(2020)
    ensures ResolveOr(data, LocationAliases, Str("-")) == Str("-")
    ensures ResolveOr(data, CompanyAliases, Str("-")) == Str("-")
  {
    assert FirstPresent(data, BatchAliases, 1);
    assert NonePresent(data, GradYearAliases);
    assert NonePresent(data, CollegeAliases);
    assert NonePresent(data, ProfessionAliases);
    assert NonePresent(data, LocationAliases);
    assert NonePresent(data, CompanyAliases);
  }

  /** Normalisation keeps the numeric batch: `rawBatch || ""` leaves it a number. */
  lemma NumericBatchKept()
    ensures Normalize(NumericBatchDoc)["batch"] == Num(2020)
  {
    NormalizedFields(NumericBatchDoc);
    NumericBatchFields(DataOf(NumericBatchDoc));
  }

  lemma NumericBatchNoName()
    ensures Get(Normalize(NumericBatchDoc), "name") == Undefined
  {
    assert DataOf(NumericBatchDoc).Keys == {"batchYear"};
    NormalizedAbsent(NumericBatchDoc, "name");
  }

  lemma NumericBatchNoEmail()
    ensures Get(Normalize(NumericBatchDoc), "email") == Undefined
  {
    assert DataOf(NumericBatchDoc).Keys == {"batchYear"};
    NormalizedAbsent(NumericBatchDoc, "email");
  }

  lemma NumericBatchNoCollege()
    ensures Normalize(NumericBatchDoc)["profession"] == Str("")
    ensures Normalize(NumericBatchDoc)["college"] == Str("")
  {
    NormalizedFields(NumericBatchDoc);
    NumericBatchFields(DataOf(NumericBatchDoc));
  }

  /** The fields searched before the batch hold no text. */
  lemma NumericBatchEarlierFields()
    ensures NoTextBeforeBatch(Normalize(NumericBatchDoc))
  {
    NumericBatchNoName();
    NumericBatchNoEmail();
    NumericBatchNoCollege();
  }

  predicate NoTextBeforeBatch(u: Record) {
    && Get(u, "name") == Undefined
    && Get(u, "email") == Undefined
    && Get(u, "profession") == Str("")
    && Get(u, "college") == Str("")
  }

  /** A record with empty name, email, profession and college and a numeric
      batch makes the as-written search throw for a query those fields cannot hold. */
  lemma NumericBatchRecordThrows(u: Record, q: string)
    requires NoTextBeforeBatch(u) && Get(u, "batch") == Num(2020)
    requires q != ""
    ensures SearchHitAsWritten(q, u, SearchFields).Failure?
  {
    assert !Includes(Lower(""), q);
    assert SearchFields[4..][0] == "batch";
    assert SearchHitAsWritten(q, u, SearchFields[4..]) == Failure(NotAFunction);
    assert SearchFields[3..][1..] == SearchFields[4..];
    assert SearchHitAsWritten(q, u, SearchFields[3..]) == Failure(NotAFunction);
    assert SearchFields[2..][1..] == SearchFields[3..];
    assert SearchHitAsWritten(q, u, SearchFields[2..]) == Failure(NotAFunction);
    assert SearchFields[1..][1..] == SearchFields[2..];
    assert SearchHitAsWritten(q, u, SearchFields[1..]) == Failure(NotAFunction);
  }

  /** Searching the directory holding that member for "x" throws. */
  lemma NumericBatchThrows()
    ensures ApplyFiltersAsWritten([Normalize(NumericBatchDoc)], Criteria("x", "", "", "", "", "")).Failure?
  {
    NumericBatchKept();
    NumericBatchEarlierFields();
    NumericBatchRecordThrows(Normalize(NumericBatchDoc), "x");
    assert Trim("x") != "" by { TrimEmptyIffBlank("x"); assert !IsJsWhitespace("x"[0]); }
    assert Lower("x") == "x";
  }

  lemma NumericBatchText()
    ensures LowerKey(Num(2020)) == "2020"
  {
    assert NatToDecimal(2) == "2";
    assert NatToDecimal(20) == "20";
    assert NatToDecimal(202) == "202";
    assert NatToDecimal(2020) == "2020";
  }

  /** Any record whose batch is the number 2020 matches the corrected search for "2020". */
  lemma NumericBatchRecordMatches(u: Record)
    requires Get(u, "batch") == Num(2020)
    ensures Matches(Criteria("2020", "", "", "", "", ""), u)
  {
    NumericBatchText();
    assert Get(u, SearchFields[4]) == Num(2020);
    assert Lower("2020") == "2020";
    assert OccursAt("2020", "2020", 0);
    assert SearchHit("2020", u);
    assert !IsBlank("2020") by { assert !IsJsWhitespace("2020"[0]); }
  }

  /** The corrected search reads the number as its decimal text and finds the member. */
  lemma CorrectedFindsNumericBatch()
    ensures ApplyFilters([Normalize(NumericBatchDoc)], Criteria("2020", "", "", "", "", "")) == [Normalize(NumericBatchDoc)]
  {
    var u := Normalize(NumericBatchDoc);
    var c := Criteria("2020", "", "", "", "", "");
    NumericBatchKept();
    NumericBatchRecordMatches(u);
    assert [u][1..] == [];
    assert Select([u], c) == [u] + Select([], c);
  }
}
