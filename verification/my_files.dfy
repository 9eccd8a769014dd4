/**
 * The "Mes fichiers" page (client/src/pages/MyFiles.tsx): the signed-in user's files narrowed
 * by the type select and the search text only.
 */
module MyFiles {
  import opened Wrappers
  import opened Text
  import opened Lists
  import opened ClientTypes
  import opened FiltersBar
  import FileGrid

  /** The page's initial filters. */
  const InitialFilters: Filters := Filters("all", "all", "30days")

  /** The page's `filter`: the type and the search; department and date are not consulted. */
  predicate Kept(file: File, filters: Filters, searchQuery: string) {
    && (filters.fileType == "all" || file.fileType == filters.fileType)
    && (searchQuery == "" || ContainsIgnoreCase(file.originalName, searchQuery))
  }

  function KeptBy(filters: Filters, searchQuery: string): File -> bool {
    (file: File) => Kept(file, filters, searchQuery)
  }

  /** `filteredFiles`; the query is disabled without a user, leaving nothing. */
  function FilteredFiles(files: Option<seq<File>>, filters: Filters, searchQuery: string): seq<File> {
    if files.None? then [] else Filter(files.value, KeptBy(filters, searchQuery))
  }

  /** The page shows, in order, exactly the user's files of the chosen type matching the search. */
  lemma FilteredFilesSpec(files: seq<File>, filters: Filters, searchQuery: string)
    ensures IsSubsequence(FilteredFiles(Some(files), filters, searchQuery), files)
    ensures forall f :: f in FilteredFiles(Some(files), filters, searchQuery) <==>
      f in files
      && (filters.fileType == "all" || f.fileType == filters.fileType)
      && (searchQuery == "" || ContainsIgnoreCase(f.originalName, searchQuery))
  {
    FilterSpec(files, KeptBy(filters, searchQuery));
  }

  /** Only the type select matters: the department and date selects change nothing. */
  lemma OnlyTypeMatters(files: Option<seq<File>>, f: Filters, g: Filters, searchQuery: string)
    requires f.fileType == g.fileType
    ensures FilteredFiles(files, f, searchQuery) == FilteredFiles(files, g, searchQuery)
  {
    if files.Some? {
      FilterCongruent(files.value, KeptBy(f, searchQuery), KeptBy(g, searchQuery));
    }
  }

  /** The page filters like the home grid with its department select left on "all". */
  lemma AgreesWithGrid(files: Option<seq<File>>, filters: Filters, searchQuery: string)
    ensures FilteredFiles(files, filters, searchQuery) ==
      FileGrid.FilteredFiles(files, filters.(department := "all"), searchQuery)
  {
    if files.Some? {
      FilterCongruent(files.value, KeptBy(filters, searchQuery),
        FileGrid.ShownBy(filters.(department := "all"), searchQuery));
    }
  }

  /** Initially, with no search, every one of the user's files is shown despite the "30days" date. */
  lemma InitialShowsAll(files: seq<File>)
    ensures FilteredFiles(Some(files), InitialFilters, "") == files
  {
    FilterKeepsAll(files, KeptBy(InitialFilters, ""));
  }
}
