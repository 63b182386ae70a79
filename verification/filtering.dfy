/** The directory's search and dropdown filtering (`applyFilters`). */
module Filtering {
  import opened JsValues
  import opened Members
  import opened Subsequences

  /** The fields the free-text search looks at, in the order it tests them.
      `role` is not among them. */
  const SearchFields: seq<string> :=
    ["name", "email", "profession", "college", "batch", "gradYear", "location", "company"]

  /** The search box and the five dropdown selections; "" selects everything. */
  datatype Criteria = Criteria(
    search: string,
    role: string,
    profession: string,
    college: string,
    location: string,
    company: string)

  /** The criteria the page starts with. */
  const NoCriteria: Criteria := Criteria("", "", "", "", "", "")

  /** The lower-cased query `q` occurs in the lower-cased value of one of `fields`. */
  predicate AnyFieldHit(q: string, u: Record, fields: seq<string>) {
    exists i :: 0 <= i < |fields| && Includes(LowerKey(Get(u, fields[i])), q)
  }

  /** The lower-cased query `q` occurs in the lower-cased value of some searched field. */
  predicate SearchHit(q: string, u: Record) {
    AnyFieldHit(q, u, SearchFields)
  }

  /** The reference meaning of the criteria for one record: the search (unless
      blank) AND every non-empty selection, compared by strict equality. */
  predicate Matches(c: Criteria, u: Record) {
    && (IsBlank(c.search) || SearchHit(Lower(c.search), u))
    && (c.role == "" || Get(u, "role") == Str(c.role))
    && (c.profession == "" || Get(u, "profession") == Str(c.profession))
    && (c.college == "" || Get(u, "college") == Str(c.college))
    && (c.location == "" || Get(u, "location") == Str(c.location))
    && (c.company == "" || Get(u, "company") == Str(c.company))
  }

  /** One `data = data.filter(...)` step of `applyFilters`. */
  datatype Stage = SearchStage(query: string) | EqualsStage(field: string, value: string)

  predicate Passes(st: Stage, u: Record) {
    match st
    case SearchStage(q) => SearchHit(Lower(q), u)
    case EqualsStage(f, v) => Get(u, f) == Str(v)
  }

  /** `s.filter(u => Passes(st, u))` */
  function Keep(s: seq<Record>, st: Stage): seq<Record> {
    if |s| == 0 then []
    else (if Passes(st, s[0]) then [s[0]] else []) + Keep(s[1..], st)
  }

  /** The steps `applyFilters` takes, in order: the search when its trimmed
      text is non-empty, then one step per non-empty selection. */
  function ActiveStages(c: Criteria): seq<Stage> {
    (if Trim(c.search) != "" then [SearchStage(c.search)] else []) + EqualityStages(c)
  }

  function EqualityStages(c: Criteria): seq<Stage> {
    (if c.role != "" then [EqualsStage("role", c.role)] else [])
    + (if c.profession != "" then [EqualsStage("profession", c.profession)] else [])
    + (if c.college != "" then [EqualsStage("college", c.college)] else [])
    + (if c.location != "" then [EqualsStage("location", c.location)] else [])
    + (if c.company != "" then [EqualsStage("company", c.company)] else [])
  }

  function ApplyStages(s: seq<Record>, stages: seq<Stage>): seq<Record>
    decreases |stages|
  {
    if |stages| == 0 then s else ApplyStages(Keep(s, stages[0]), stages[1..])
  }

  predicate PassesAll(stages: seq<Stage>, u: Record) {
    forall i :: 0 <= i < |stages| ==> Passes(stages[i], u)
  }

  /** The records of `s` that pass every stage, in one pass. */
  function KeepAll(s: seq<Record>, stages: seq<Stage>): seq<Record> {
    if |s| == 0 then []
    else (if PassesAll(stages, s[0]) then [s[0]] else []) + KeepAll(s[1..], stages)
  }

  /** The records of `s` that match the criteria, in one pass. */
  function Select(s: seq<Record>, c: Criteria): (r: seq<Record>)
    ensures IsSubsequence(r, s)
    ensures forall u :: u in r <==> u in s && Matches(c, u)
    ensures forall u :: multiset(r)[u] == if Matches(c, u) then multiset(s)[u] else 0
  {
    if |s| == 0 then []
    else
      var rest := Select(s[1..], c);
      assert forall u :: u in s <==> u == s[0] || u in s[1..];
      assert s == [s[0]] + s[1..];
      if Matches(c, s[0]) then
        assert ([s[0]] + rest)[1..] == rest;
        [s[0]] + rest
      else
        SubsequenceOfTail(rest, s);
        rest
  }

  /** `applyFilters`: always recomputed from the full `users` list. */
  function ApplyFilters(users: seq<Record>, c: Criteria): (r: seq<Record>)
    ensures r == Select(users, c)
    ensures IsSubsequence(r, users)
    ensures forall u :: u in r <==> u in users && Matches(c, u)
    ensures forall u :: multiset(r)[u] == if Matches(c, u) then multiset(users)[u] else 0
  {
    StagesAreOnePass(users, ActiveStages(c));
    KeepAllMatches(users, c);
    ApplyStages(users, ActiveStages(c))
  }

  /** Passing every stage is passing the first and then all the others. */
  lemma PassesAllSplit(stages: seq<Stage>, u: Record)
    requires |stages| > 0
    ensures PassesAll(stages, u) <==> Passes(stages[0], u) && PassesAll(stages[1..], u)
  {
    assert forall i :: 1 <= i < |stages| ==> stages[i] == stages[1..][i - 1];
  }

  lemma {:induction false} KeepThenKeepAll(s: seq<Record>, stages: seq<Stage>)
    requires |stages| > 0
    ensures KeepAll(Keep(s, stages[0]), stages[1..]) == KeepAll(s, stages)
    decreases |s|
  {
    if |s| > 0 {
      KeepThenKeepAll(s[1..], stages);
      PassesAllSplit(stages, s[0]);
      var k := Keep(s[1..], stages[0]);
      if Passes(stages[0], s[0]) {
        assert Keep(s, stages[0]) == [s[0]] + k;
        assert ([s[0]] + k)[1..] == k;
      } else {
        assert Keep(s, stages[0]) == k;
      }
    }
  }

  lemma {:induction false} KeepAllNone(s: seq<Record>)
    ensures KeepAll(s, []) == s
    decreases |s|
  {
    if |s| > 0 {
      KeepAllNone(s[1..]);
      assert s == [s[0]] + s[1..];
    }
  }

  /** Applying the stages one after another keeps exactly the records that pass them all. */
  lemma {:induction false} StagesAreOnePass(s: seq<Record>, stages: seq<Stage>)
    ensures ApplyStages(s, stages) == KeepAll(s, stages)
    decreases |stages|
  {
    if |stages| == 0 {
      KeepAllNone(s);
    } else {
      StagesAreOnePass(Keep(s, stages[0]), stages[1..]);
      KeepThenKeepAll(s, stages);
    }
  }

  /** The active stages pass exactly the records that match the criteria. */
  lemma ActiveStagesMeaning(c: Criteria, u: Record)
    ensures PassesAll(ActiveStages(c), u) <==> Matches(c, u)
  {
    TrimEmptyIffBlank(c.search);
    var ss := if Trim(c.search) != "" then [SearchStage(c.search)] else [];
    var e1 := if c.role != "" then [EqualsStage("role", c.role)] else [];
    var e2 := if c.profession != "" then [EqualsStage("profession", c.profession)] else [];
    var e3 := if c.college != "" then [EqualsStage("college", c.college)] else [];
    var e4 := if c.location != "" then [EqualsStage("location", c.location)] else [];
    var e5 := if c.company != "" then [EqualsStage("company", c.company)] else [];
    assert ActiveStages(c) == ss + (e1 + e2 + e3 + e4 + e5);
    PassesAllConcat(ss, e1 + e2 + e3 + e4 + e5, u);
    PassesAllConcat(e1 + e2 + e3 + e4, e5, u);
    PassesAllConcat(e1 + e2 + e3, e4, u);
    PassesAllConcat(e1 + e2, e3, u);
    PassesAllConcat(e1, e2, u);
    assert PassesAll(ss, u) <==> (IsBlank(c.search) || SearchHit(Lower(c.search), u)) by {
      if Trim(c.search) != "" { assert ss[0] == SearchStage(c.search); }
    }
    assert PassesAll(e1, u) <==> (c.role == "" || Get(u, "role") == Str(c.role)) by {
      if c.role != "" { assert e1[0] == EqualsStage("role", c.role); }
    }
    assert PassesAll(e2, u) <==> (c.profession == "" || Get(u, "profession") == Str(c.profession)) by {
      if c.profession != "" { assert e2[0] == EqualsStage("profession", c.profession); }
    }
    assert PassesAll(e3, u) <==> (c.college == "" || Get(u, "college") == Str(c.college)) by {
      if c.college != "" { assert e3[0] == EqualsStage("college", c.college); }
    }
    assert PassesAll(e4, u) <==> (c.location == "" || Get(u, "location") == Str(c.location)) by {
      if c.location != "" { assert e4[0] == EqualsStage("location", c.location); }
    }
    assert PassesAll(e5, u) <==> (c.company == "" || Get(u, "company") == Str(c.company)) by {
      if c.company != "" { assert e5[0] == EqualsStage("company", c.company); }
    }
  }

  lemma PassesAllConcat(a: seq<Stage>, b: seq<Stage>, u: Record)
    ensures PassesAll(a + b, u) <==> PassesAll(a, u) && PassesAll(b, u)
  {
    if PassesAll(a, u) && PassesAll(b, u) {
      forall i | 0 <= i < |a + b| ensures Passes((a + b)[i], u) {
        if i >= |a| { assert (a + b)[i] == b[i - |a|]; }
      }
    }
    if PassesAll(a + b, u) {
      forall i | 0 <= i < |a| ensures Passes(a[i], u) {
        assert (a + b)[i] == a[i];
      }
      forall i | 0 <= i < |b| ensures Passes(b[i], u) {
        assert (a + b)[|a| + i] == b[i];
      }
    }
  }

  lemma {:induction false} KeepAllMatches(s: seq<Record>, c: Criteria)
    ensures KeepAll(s, ActiveStages(c)) == Select(s, c)
    decreases |s|
  {
    if |s| > 0 {
      KeepAllMatches(s[1..], c);
      ActiveStagesMeaning(c, s[0]);
    }
  }

  /** Filtering an already filtered list with the same criteria changes nothing. */
  lemma {:induction false} SelectIdempotent(s: seq<Record>, c: Criteria)
    ensures Select(Select(s, c), c) == Select(s, c)
    decreases |s|
  {
    if |s| > 0 {
      SelectIdempotent(s[1..], c);
      var rest := Select(s[1..], c);
      if Matches(c, s[0]) {
        assert ([s[0]] + rest)[0] == s[0];
        assert ([s[0]] + rest)[1..] == rest;
      }
    }
  }

  lemma FilterIdempotent(users: seq<Record>, c: Criteria)
    ensures ApplyFilters(ApplyFilters(users, c), c) == ApplyFilters(users, c)
  {
    SelectIdempotent(users, c);
  }

  /** With no search and no selection every record is shown, in order. */
  lemma {:induction false} NoCriteriaKeepsAll(users: seq<Record>)
    ensures ApplyFilters(users, NoCriteria) == users
    decreases |users|
  {
    if |users| > 0 {
      NoCriteriaKeepsAll(users[1..]);
      assert IsBlank(NoCriteria.search);
      assert Matches(NoCriteria, users[0]);
      assert users == [users[0]] + users[1..];
    }
  }

  /** The search is case-insensitive: a search text that differs only in the
      case of its letters selects the same records. */
  lemma SearchIgnoresCase(c: Criteria, q: string, u: Record)
    requires SameUpToAsciiCase(c.search, q)
    ensures Matches(c, u) <==> Matches(c.(search := q), u)
  {
    LowerIgnoresCase(c.search, q);
    BlankIgnoresCase(c.search, q);
  }

  /** The search never looks at `role`: changing it cannot change a search hit. */
  lemma SearchIgnoresRole(q: string, u: Record, role: Value)
    ensures SearchHit(q, u) <==> SearchHit(q, u["role" := role])
  {
    assert forall i :: 0 <= i < |SearchFields| ==> SearchFields[i] != "role";
    assert forall i :: 0 <= i < |SearchFields| ==> Get(u, SearchFields[i]) == Get(u["role" := role], SearchFields[i]);
  }
}
