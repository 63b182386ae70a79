/** The directory page's state and the events that change it: a completed
    fetch, a change to the search box or a dropdown, and a click on a sort
    button. */
module DirectoryView {
  import opened JsValues
  import opened Members
  import opened Filtering
  import opened Sorting
  import opened FilterOptions

  /** `users`, `filtered`, the search and dropdown selections, and `sortBy`. */
  datatype View = View(users: seq<Record>, filtered: seq<Record>, criteria: Criteria, sortBy: SortBy)

  datatype Event =
    | FetchSucceeded(docs: seq<RawDoc>)
    | FetchFailed
    | CriteriaChanged(criteria: Criteria)
    | ColumnClicked(field: string)

  /** The state after the first render and its effects. */
  const Initial: View := View([], [], NoCriteria, InitialSortBy)

  /** The list is the filtered full list, in some order. */
  ghost predicate Consistent(v: View) {
    multiset(v.filtered) == multiset(ApplyFilters(v.users, v.criteria))
  }

  /** One event. A fetch sets `users` (and briefly `filtered`) to the
      normalised list, after which the effect on `users` re-applies the
      filters; a failed fetch is logged and changes nothing; a criteria change
      re-applies the filters to the full list; a column click sorts the list
      currently shown. */
  function Step(v: View, e: Event): (r: View)
    ensures Consistent(v) ==> Consistent(r)
    ensures r.criteria == (if e.CriteriaChanged? then e.criteria else v.criteria)
    ensures e.ColumnClicked? ==> r.sortBy == NextSortBy(v.sortBy, e.field)
    ensures e.ColumnClicked? ==> Sorted(r.filtered, r.sortBy.field, r.sortBy.dir)
    // a fetch or a criteria change shows the matches in the order of `users`
    ensures e.FetchSucceeded? || e.CriteriaChanged? ==> r.filtered == ApplyFilters(r.users, r.criteria)
    // a click sorts the rows already shown; tied rows keep their order
    ensures e.ColumnClicked? ==> r.filtered == SortRecords(v.filtered, e.field, r.sortBy.dir)
    ensures e.ColumnClicked? ==> forall k :: KeyGroup(r.filtered, e.field, k) == KeyGroup(v.filtered, e.field, k)
    ensures e.FetchFailed? ==> r == v
    ensures !e.ColumnClicked? ==> r.sortBy == v.sortBy
    ensures e.FetchSucceeded? ==> r.users == NormalizeAll(e.docs)
    ensures !e.FetchSucceeded? ==> r.users == v.users
  {
    match e
    case FetchSucceeded(docs) =>
      var users := NormalizeAll(docs);
      v.(users := users, filtered := ApplyFilters(users, v.criteria))
    case FetchFailed => v
    case CriteriaChanged(c) =>
      v.(criteria := c, filtered := ApplyFilters(v.users, c))
    case ColumnClicked(field) =>
      var next := NextSortBy(v.sortBy, field);
      v.(sortBy := next, filtered := SortRecords(v.filtered, field, next.dir))
  }

  function Run(v: View, events: seq<Event>): View
    decreases |events|
  {
    if |events| == 0 then v else Run(Step(v, events[0]), events[1..])
  }

  /** Whatever happened since the page opened, the rows shown are exactly the
      loaded records that match the current criteria, each as often as in
      the loaded list. */
  lemma {:induction false} AlwaysConsistent(v: View, events: seq<Event>)
    requires Consistent(v)
    ensures Consistent(Run(v, events))
    decreases |events|
  {
    if |events| > 0 {
      AlwaysConsistent(Step(v, events[0]), events[1..]);
    }
  }

  lemma InitialConsistent()
    ensures Consistent(Initial)
  {
    assert ApplyFilters([], NoCriteria) == [];
  }

  /** In a consistent state a record is shown exactly when it is loaded and
      matches, and then as many times as it is loaded. */
  lemma ShownIffMatches(v: View, u: Record)
    requires Consistent(v)
    ensures u in v.filtered <==> u in v.users && Matches(v.criteria, u)
    ensures multiset(v.filtered)[u] == if Matches(v.criteria, u) then multiset(v.users)[u] else 0
  {
    assert u in v.filtered <==> u in multiset(v.filtered);
  }

  /** A criteria change forgets how the list was filtered or sorted before. */
  lemma FilterForgetsHistory(v1: View, v2: View, c: Criteria)
    requires v1.users == v2.users
    ensures Step(v1, CriteriaChanged(c)).filtered == Step(v2, CriteriaChanged(c)).filtered
  {
  }

  /** The dropdown lists, computed from every loaded record. */
  function Options(v: View): (r: seq<seq<Value>>)
    ensures |r| == |OptionFields|
    ensures forall i :: 0 <= i < |OptionFields| ==> FirstSeen(FieldValues(v.users, OptionFields[i]), r[i])
  {
    seq(|OptionFields|, i requires 0 <= i < |OptionFields| => OptionList(v.users, OptionFields[i]))
  }

  /** Narrowing the list or sorting it never changes what the dropdowns offer. */
  lemma OptionsIgnoreFiltering(v: View, e: Event)
    requires !e.FetchSucceeded?
    ensures Options(Step(v, e)) == Options(v)
  {
  }
}
