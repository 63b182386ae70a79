/** The dropdown option lists: `[...new Set(users.map(u => u.field).filter(Boolean))]`. */
module FilterOptions {
  import opened JsValues
  import opened Members

  /** The fields that have a dropdown, in the order the page shows them. */
  const OptionFields: seq<string> := ["role", "profession", "college", "location", "company"]

  /** `users.map(u => u[field])` */
  function FieldValues(users: seq<Record>, field: string): (r: seq<Value>)
    ensures |r| == |users|
    ensures forall i :: 0 <= i < |users| ==> r[i] == Get(users[i], field)
  {
    seq(|users|, i requires 0 <= i < |users| => Get(users[i], field))
  }

  predicate NoDuplicates(s: seq<Value>) {
    forall i, j :: 0 <= i < j < |s| ==> s[i] != s[j]
  }

  /** The position of the first occurrence of `v` in `s`. */
  function IndexOf(s: seq<Value>, v: Value): (i: nat)
    requires v in s
    ensures i < |s| && s[i] == v && v !in s[..i]
  {
    if s[0] == v then 0
    else
      var i := 1 + IndexOf(s[1..], v);
      assert s[..i] == [s[0]] + s[1..][..i - 1];
      i
  }

  lemma IndexOfExtend(p: seq<Value>, x: Value, y: Value)
    ensures y in p ==> IndexOf(p + [x], y) == IndexOf(p, y)
    ensures x !in p ==> IndexOf(p + [x], x) == |p|
  {
    var s := p + [x];
    assert s[..|p|] == p;
    if y in p {
      var i, k := IndexOf(s, y), IndexOf(p, y);
      assert s[..k] == p[..k];
      assert s[k] == y;
    }
  }

  /** The distinct truthy values of `s`, each where it first occurs. */
  function FirstTruthyOccurrences(s: seq<Value>): seq<Value> {
    if |s| == 0 then []
    else
      var p, x := s[..|s| - 1], s[|s| - 1];
      FirstTruthyOccurrences(p) + (if Truthy(x) && x !in p then [x] else [])
  }

  lemma {:induction false} FirstTruthyOccurrencesSpec(s: seq<Value>)
    ensures FirstSeen(s, FirstTruthyOccurrences(s))
    decreases |s|
  {
    if |s| > 0 {
      var p, x := s[..|s| - 1], s[|s| - 1];
      FirstTruthyOccurrencesSpec(p);
      assert s == p + [x];
      FirstSeenStep(p, x, FirstTruthyOccurrences(p));
    }
  }

  /** `r` lists the distinct truthy values of `s`, without repetition, in the
      order of their first occurrence in `s`. */
  ghost predicate FirstSeen(s: seq<Value>, r: seq<Value>) {
    && (forall v :: v in r <==> v in s && Truthy(v))
    && NoDuplicates(r)
    && (forall i, j :: 0 <= i < j < |r| ==> r[i] in s && r[j] in s && IndexOf(s, r[i]) < IndexOf(s, r[j]))
  }

  lemma FirstSeenStep(p: seq<Value>, x: Value, rp: seq<Value>)
    requires FirstSeen(p, rp)
    ensures FirstSeen(p + [x], rp + (if Truthy(x) && x !in p then [x] else []))
  {
    var s := p + [x];
    var r := rp + (if Truthy(x) && x !in p then [x] else []);
    forall y | y in rp ensures IndexOf(s, y) == IndexOf(p, y) {
      IndexOfExtend(p, x, y);
    }
    forall i, j | 0 <= i < j < |r| ensures r[i] in s && r[j] in s && IndexOf(s, r[i]) < IndexOf(s, r[j]) {
      assert r[i] in rp;
      if j < |rp| {
        assert r[j] in rp;
      } else {
        IndexOfExtend(p, x, x);
      }
    }
  }

  lemma FirstTruthyAppend(p: seq<Value>, x: Value)
    ensures FirstTruthyOccurrences(p + [x])
      == FirstTruthyOccurrences(p) + (if Truthy(x) && x !in p then [x] else [])
  {
    assert (p + [x])[..|p|] == p;
  }

  /** The option list of one dropdown, computed from every loaded record. */
  function OptionList(users: seq<Record>, field: string): (r: seq<Value>)
    ensures FirstSeen(FieldValues(users, field), r)
  {
    FirstTruthyOccurrencesSpec(FieldValues(users, field));
    FirstTruthyOccurrences(FieldValues(users, field))
  }

  /** `[...new Set(users.map(u => u[field]).filter(Boolean))]`, one pass with a
      set of values already taken. */
  method DeriveOptions(users: seq<Record>, field: string) returns (r: seq<Value>)
    ensures r == OptionList(users, field)
  {
    var vals := FieldValues(users, field);
    r := DistinctTruthy(vals);
  }

  /** `[...new Set(vals.filter(Boolean))]` */
  method DistinctTruthy(vals: seq<Value>) returns (r: seq<Value>)
    ensures r == FirstTruthyOccurrences(vals)
    ensures FirstSeen(vals, r)
  {
    var seen: set<Value> := {};
    r := [];
    var i := 0;
    while i < |vals|
      invariant 0 <= i <= |vals|
      invariant r == FirstTruthyOccurrences(vals[..i])
      invariant forall v :: v in seen <==> v in vals[..i] && Truthy(v)
    {
      var v := vals[i];
      assert vals[..i + 1] == vals[..i] + [v];
      FirstTruthyAppend(vals[..i], v);
      if Truthy(v) && v !in seen {
        r := r + [v];
        seen := seen + {v};
      }
      i := i + 1;
    }
    assert vals[..|vals|] == vals;
    FirstTruthyOccurrencesSpec(vals);
  }

  /** A record whose document had no truthy location (or company) alias shows
      "-" there, so "-" is offered in that dropdown. */
  lemma PlaceholderOffered(docs: seq<RawDoc>, i: int, field: string, aliases: seq<string>)
    requires 0 <= i < |docs|
    requires DashField(field, aliases)
    requires forall j :: 0 <= j < |aliases| ==> !Truthy(Get(DataOf(docs[i]), aliases[j]))
    ensures Str("-") in OptionList(NormalizeAll(docs), field)
  {
    var users := NormalizeAll(docs);
    DashPlaceholder(docs[i], field, aliases);
    assert FieldValues(users, field)[i] == Str("-");
  }
}
