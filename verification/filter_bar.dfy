/** The filter state of the todo list and the filter bar's three operations:
    change one key, clear all, and whether any filter is active. */
module FilterBar {

  /** The six keys of the filter object, in declaration order. */
  datatype Key = Category | Priority | Completed | Search | SortBy | SortOrder

  datatype Filters = Filters(
    category: string,
    priority: string,
    completed: string,
    search: string,
    sortBy: string,
    sortOrder: string)

  /** The keys that narrow the list, as opposed to the two that order it. */
  predicate Narrows(k: Key) {
    k != SortBy && k != SortOrder
  }

  function Get(f: Filters, k: Key): string {
    match k
    case Category => f.category
    case Priority => f.priority
    case Completed => f.completed
    case Search => f.search
    case SortBy => f.sortBy
    case SortOrder => f.sortOrder
  }

  /** `handleFilterChange(key, value)`: the spread `{ ...prev, [key]: value }`. */
  function Change(f: Filters, k: Key, v: string): (r: Filters)
    ensures Get(r, k) == v
    ensures forall j :: j != k ==> Get(r, j) == Get(f, j)
  {
    match k
    case Category => f.(category := v)
    case Priority => f.(priority := v)
    case Completed => f.(completed := v)
    case Search => f.(search := v)
    case SortBy => f.(sortBy := v)
    case SortOrder => f.(sortOrder := v)
  }

  /** The filters the list starts with, and what `clearFilters` installs. */
  function Cleared(): (r: Filters)
    ensures forall k :: Narrows(k) ==> Get(r, k) == ""
    ensures r.sortBy == "createdAt" && r.sortOrder == "desc"
    ensures !HasActiveFilters(r)
  {
    Filters("", "", "", "", "createdAt", "desc")
  }

  /** `hasActiveFilters`: some narrowing key is non-empty. */
  function HasActiveFilters(f: Filters): (active: bool)
    ensures active <==> exists k :: Narrows(k) && Get(f, k) != ""
  {
    assert f.category != "" ==> Narrows(Category) && Get(f, Category) != "";
    assert f.priority != "" ==> Narrows(Priority) && Get(f, Priority) != "";
    assert f.completed != "" ==> Narrows(Completed) && Get(f, Completed) != "";
    assert f.search != "" ==> Narrows(Search) && Get(f, Search) != "";
    f.category != "" || f.priority != "" || f.completed != "" || f.search != ""
  }

  /** Re-ordering the list never activates or deactivates a filter. */
  lemma SortChangeKeepsActivity(f: Filters, k: Key, v: string)
    requires !Narrows(k)
    ensures HasActiveFilters(Change(f, k, v)) == HasActiveFilters(f)
  {
    var r := Change(f, k, v);
    forall j | Narrows(j) ensures Get(r, j) == Get(f, j) {
      assert j != k;
    }
  }

  /** Setting a narrowing key to a non-empty value always activates the filters,
      and emptying it again restores the previous activity when that key was empty. */
  lemma NarrowingChangeActivates(f: Filters, k: Key, v: string)
    requires Narrows(k)
    ensures v != "" ==> HasActiveFilters(Change(f, k, v))
    ensures Get(f, k) == "" ==> HasActiveFilters(Change(Change(f, k, v), k, "")) == HasActiveFilters(f)
  {
    assert Get(Change(f, k, v), k) == v;
    if Get(f, k) == "" {
      var r := Change(Change(f, k, v), k, "");
      assert Get(r, Category) == Get(f, Category) && Get(r, Priority) == Get(f, Priority);
      assert Get(r, Completed) == Get(f, Completed) && Get(r, Search) == Get(f, Search);
      assert Get(r, SortBy) == Get(f, SortBy) && Get(r, SortOrder) == Get(f, SortOrder);
      assert r == f;
    }
  }
}
