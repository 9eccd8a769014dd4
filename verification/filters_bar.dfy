/**
 * The filter bar above the file list (client/src/components/Files/FiltersBar.tsx): the three
 * select filters the parent holds, the local search text, and the badge counting the filters
 * in force. The 300 ms debounce between the search text and the parent is not modelled.
 */
module FiltersBar {
  import opened Text
  import opened Lists

  /** The parent's filter object; the `type` key is `fileType` here. */
  datatype Filters = Filters(fileType: string, department: string, date: string)

  datatype FilterKey = TypeKey | DepartmentKey | DateKey

  const AllFilters: Filters := Filters("all", "all", "all")

  /** The value under one key. */
  function Get(f: Filters, key: FilterKey): string {
    match key
    case TypeKey => f.fileType
    case DepartmentKey => f.department
    case DateKey => f.date
  }

  /** `{ ...filters, [key]: value }` */
  function With(f: Filters, key: FilterKey, value: string): (g: Filters)
    ensures Get(g, key) == value
    ensures forall k :: k != key ==> Get(g, k) == Get(f, k)
  {
    match key
    case TypeKey => f.(fileType := value)
    case DepartmentKey => f.(department := value)
    case DateKey => f.(date := value)
  }

  predicate NotAll(v: string) {
    v != "all"
  }

  /** The badge's number: select filters other than "all", plus one for a non-blank search. */
  function ActiveCount(f: Filters, search: string): (n: nat)
    ensures n <= 4
  {
    var selects := [f.fileType, f.department, f.date];
    FilterSpec(selects, NotAll);
    Count(selects, NotAll) + (if IsBlank(search) then 0 else 1)
  }

  function Tick(b: bool): nat {
    if b then 1 else 0
  }

  /** Counting the selects is adding one per select away from "all". */
  lemma SelectsCount(f: Filters)
    ensures Count([f.fileType, f.department, f.date], NotAll)
      == Tick(NotAll(f.fileType)) + Tick(NotAll(f.department)) + Tick(NotAll(f.date))
  {
    var selects := [f.fileType, f.department, f.date];
    assert selects[1..] == [f.department, f.date];
    assert selects[1..][1..] == [f.date];
    assert selects[1..][1..][1..] == [];
    assert |Filter([f.date], NotAll)| == Tick(NotAll(f.date));
    assert |Filter([f.department, f.date], NotAll)| == Tick(NotAll(f.department)) + Tick(NotAll(f.date));
  }

  /**
   * No filter is counted exactly when all three selects are "all" and the search is blank; a
   * search of spaces counts like no search; every select away from "all" adds one.
   */
  lemma ActiveCountSpec(f: Filters, search: string)
    ensures ActiveCount(f, search) == 0 <==>
      f.fileType == "all" && f.department == "all" && f.date == "all" && AllWhitespace(search)
    ensures AllWhitespace(search) ==> ActiveCount(f, search) == ActiveCount(f, "")
    ensures ActiveCount(f, search) == 4 <==>
      f.fileType != "all" && f.department != "all" && f.date != "all" && !AllWhitespace(search)
  {
    SelectsCount(f);
    BlankIffAllWhitespace(search);
    BlankIffAllWhitespace("");
  }

  /** Changing one select to a value other than "all" raises the count by one when it was "all". */
  lemma ActiveCountStep(f: Filters, key: FilterKey, value: string, search: string)
    requires Get(f, key) == "all" && value != "all"
    ensures ActiveCount(With(f, key, value), search) == ActiveCount(f, search) + 1
  {
    SelectsCount(f);
    SelectsCount(With(f, key, value));
  }

  class FiltersBarState {
    var filters: Filters
    var localSearch: string

    /** The search text starts from the parent's query. */
    constructor (searchQuery: string, filters: Filters)
      ensures this.filters == filters && localSearch == searchQuery
    {
      this.filters := filters;
      localSearch := searchQuery;
    }

    /** `getActiveFiltersCount`, counting up one filter at a time. */
    method ActiveFiltersCount() returns (count: nat)
      ensures count == ActiveCount(filters, localSearch)
    {
      SelectsCount(filters);
      count := 0;
      if filters.fileType != "all" {
        count := count + 1;
      }
      if filters.department != "all" {
        count := count + 1;
      }
      if filters.date != "all" {
        count := count + 1;
      }
      if localSearch != "" && Trim(localSearch) != "" {
        count := count + 1;
      }
    }

    /** `handleFilterChange`: only the named key changes. */
    method HandleFilterChange(key: FilterKey, value: string)
      modifies this
      ensures filters == With(old(filters), key, value)
      ensures localSearch == old(localSearch)
    {
      filters := With(filters, key, value);
    }

    /** `clearAllFilters`: every select back to "all", the search emptied, the badge at 0. */
    method ClearAllFilters()
      modifies this
      ensures filters == AllFilters && localSearch == ""
      ensures ActiveCount(filters, localSearch) == 0
    {
      localSearch := "";
      filters := AllFilters;
    }
  }
}
