/**
 * The file grid of the home page (client/src/components/Files/FileGrid.tsx): the fetched list
 * narrowed by the filter bar's type and department and by the search text, and the footer
 * reporting how many files are shown.
 */
module FileGrid {
  import opened Wrappers
  import opened Text
  import opened Lists
  import opened ClientTypes
  import opened FiltersBar

  /** The three tests of the grid's `filter`; "all" and an empty search test nothing. */
  predicate Shown(file: File, filters: Filters, searchQuery: string) {
    && (filters.fileType == "all" || file.fileType == filters.fileType)
    && (filters.department == "all" || file.department == Some(filters.department))
    && (searchQuery == "" || ContainsIgnoreCase(file.originalName, searchQuery))
  }

  function ShownBy(filters: Filters, searchQuery: string): File -> bool {
    (file: File) => Shown(file, filters, searchQuery)
  }

  /** `filteredFiles`: nothing while the list has not arrived. */
  function FilteredFiles(files: Option<seq<File>>, filters: Filters, searchQuery: string): seq<File> {
    if files.None? then [] else Filter(files.value, ShownBy(filters, searchQuery))
  }

  /** "Affichage de <first> à <last> sur <total> fichiers" */
  function FooterText(first: nat, last: nat, total: nat): string {
    "Affichage de " + NatToString(first) + " \U{00E0} " + NatToString(last) + " sur " + NatToString(total) + " fichiers"
  }

  /** The footer under a non-empty grid. */
  function Footer(files: Option<seq<File>>, filters: Filters, searchQuery: string): string {
    var n := |FilteredFiles(files, filters, searchQuery)|;
    FooterText(1, n, n)
  }

  /**
   * The grid shows, in the fetched order, exactly the fetched files that pass all three tests.
   */
  lemma FilteredFilesSpec(files: seq<File>, filters: Filters, searchQuery: string)
    ensures IsSubsequence(FilteredFiles(Some(files), filters, searchQuery), files)
    ensures forall f :: f in FilteredFiles(Some(files), filters, searchQuery) <==>
      f in files
      && (filters.fileType == "all" || f.fileType == filters.fileType)
      && (filters.department == "all" || f.department == Some(filters.department))
      && (searchQuery == "" || ContainsIgnoreCase(f.originalName, searchQuery))
  {
    FilterSpec(files, ShownBy(filters, searchQuery));
  }

  /** With every select on "all" and no search, the grid shows the whole list. */
  lemma NoFiltersShowsAll(files: seq<File>)
    ensures FilteredFiles(Some(files), AllFilters, "") == files
  {
    FilterKeepsAll(files, ShownBy(AllFilters, ""));
  }

  /** The date select plays no part in the grid. */
  lemma DateIgnored(files: Option<seq<File>>, filters: Filters, date: string, searchQuery: string)
    ensures FilteredFiles(files, filters.(date := date), searchQuery) == FilteredFiles(files, filters, searchQuery)
  {
    if files.Some? {
      FilterCongruent(files.value, ShownBy(filters.(date := date), searchQuery), ShownBy(filters, searchQuery));
    }
  }

  /** The search ignores case: a query and its upper-case form show the same files. */
  lemma SearchIgnoresCase(files: Option<seq<File>>, filters: Filters, searchQuery: string)
    ensures FilteredFiles(files, filters, Upper(searchQuery)) == FilteredFiles(files, filters, searchQuery)
  {
    CaseRoundTrips(searchQuery);
    if files.Some? {
      FilterCongruent(files.value, ShownBy(filters, Upper(searchQuery)), ShownBy(filters, searchQuery));
    }
  }

  /** The footer's text up to the number of the last file shown. */
  const FooterHead: string := "Affichage de 1 \U{00E0} "

  /**
   * The footer claims one page holding every shown file: it starts "Affichage de 1 à " and
   * `parseInt` of what follows reads back the number of files shown, which never exceeds the
   * number fetched.
   */
  lemma FooterSpec(files: Option<seq<File>>, filters: Filters, searchQuery: string, n: nat)
    requires n == |FilteredFiles(files, filters, searchQuery)|
    ensures Footer(files, filters, searchQuery)[..|FooterHead|] == FooterHead
    ensures ParseInt(Footer(files, filters, searchQuery)[|FooterHead|..]) == Some(n)
    ensures files.Some? ==> n <= |files.value|
  {
    var rest := " sur " + NatToString(n) + " fichiers";
    assert NatToString(1) == "1";
    assert Footer(files, filters, searchQuery) == FooterHead + (NatToString(n) + rest);
    ParseIntOfPrinted(n, rest);
    if files.Some? {
      FilterSpec(files.value, ShownBy(filters, searchQuery));
    }
  }
}
