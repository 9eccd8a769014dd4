/**
 * The search page (client/src/pages/Search.tsx): the typed text, the query actually sent, the
 * two selects narrowing the answer, and the list of types offered in the type select. The
 * server's answer to a query is a parameter.
 */
module SearchPage {
  import opened Wrappers
  import opened Text
  import opened Lists
  import opened ClientTypes

  /** The selects; an empty string means "no constraint". */
  datatype SearchFilters = SearchFilters(department: string, fileType: string)

  const NoFilters: SearchFilters := SearchFilters("", "")

  /** What the list holds: nothing unless a user is signed in and a query has been sent. */
  function FetchedFiles(user: Option<User>, activeQuery: string, answer: seq<File>): seq<File> {
    if user.None? || activeQuery == "" then [] else answer
  }

  predicate Kept(file: File, filters: SearchFilters) {
    && (filters.department == "" || file.department == Some(filters.department))
    && (filters.fileType == "" || file.fileType == filters.fileType)
  }

  function KeptBy(filters: SearchFilters): File -> bool {
    (file: File) => Kept(file, filters)
  }

  /** `filteredFiles` */
  function FilteredFiles(files: seq<File>, filters: SearchFilters): seq<File> {
    Filter(files, KeptBy(filters))
  }

  function TypeOf(file: File): string {
    file.fileType
  }

  /** `fileTypes`: the types of the unfiltered answer, each once, in first-seen order. */
  function FileTypes(files: seq<File>): seq<string> {
    Distinct(Map(files, TypeOf))
  }

  /** The list keeps, in order, exactly the files matching each non-empty select. */
  lemma FilteredFilesSpec(files: seq<File>, filters: SearchFilters)
    ensures IsSubsequence(FilteredFiles(files, filters), files)
    ensures forall f :: f in FilteredFiles(files, filters) <==>
      f in files
      && (filters.department == "" || f.department == Some(filters.department))
      && (filters.fileType == "" || f.fileType == filters.fileType)
  {
    FilterSpec(files, KeptBy(filters));
  }

  /** With both selects cleared the whole answer is listed. */
  lemma ClearedKeepsAll(files: seq<File>)
    ensures FilteredFiles(files, NoFilters) == files
  {
    FilterKeepsAll(files, KeptBy(NoFilters));
  }

  /** Without a user or before a query is sent, the page lists nothing and offers no type. */
  lemma NothingBeforeSearch(user: Option<User>, answer: seq<File>, filters: SearchFilters)
    ensures FilteredFiles(FetchedFiles(user, "", answer), filters) == []
    ensures FileTypes(FetchedFiles(None, "q", answer)) == []
  {
  }

  /**
   * The offered types are the answer's types, each exactly once, in the order in which a file
   * of that type first appears in the answer.
   */
  lemma FileTypesSpec(files: seq<File>)
    ensures NoDuplicates(FileTypes(files))
    ensures forall t :: t in FileTypes(files) <==> exists f :: f in files && f.fileType == t
    ensures forall i, j :: 0 <= i < j < |FileTypes(files)| ==>
      FirstIndex(Map(files, TypeOf), FileTypes(files)[i]) < FirstIndex(Map(files, TypeOf), FileTypes(files)[j])
  {
    var types := Map(files, TypeOf);
    DistinctSpec(types);
    DistinctOrder(types);
    forall t ensures t in types <==> exists f :: f in files && f.fileType == t {
      if t in types {
        var i :| 0 <= i < |types| && types[i] == t;
        assert types[i] == TypeOf(files[i]);
        assert files[i] in files && files[i].fileType == t;
      }
      if exists f :: f in files && f.fileType == t {
        var f :| f in files && f.fileType == t;
        var i :| 0 <= i < |files| && files[i] == f;
        assert types[i] == TypeOf(files[i]) == t;
      }
    }
  }

  /** Every type a filtered file has is offered in the type select. */
  lemma FilteredTypesOffered(files: seq<File>, filters: SearchFilters)
    ensures forall f :: f in FilteredFiles(files, filters) ==> f.fileType in FileTypes(files)
  {
    FilteredFilesSpec(files, filters);
    FileTypesSpec(files);
  }

  class SearchPageState {
    const user: Option<User>
    var searchQuery: string
    var activeQuery: string
    var filters: SearchFilters

    /** The query sent is either none yet or a text that is not blank. */
    predicate Valid()
      reads this
    {
      activeQuery == "" || !IsBlank(activeQuery)
    }

    constructor (user: Option<User>)
      ensures Valid()
      ensures this.user == user
      ensures searchQuery == "" && activeQuery == "" && filters == NoFilters
    {
      this.user := user;
      searchQuery := "";
      activeQuery := "";
      filters := NoFilters;
    }

    /** Typing in the search box. */
    method TypeQuery(text: string)
      requires Valid()
      modifies this
      ensures Valid()
      ensures searchQuery == text
      ensures activeQuery == old(activeQuery) && filters == old(filters)
    {
      searchQuery := text;
    }

    /**
     * `handleSearch`: a text that is not blank becomes the sent query exactly as typed, spaces
     * included; a blank one leaves the previous query in force.
     */
    method HandleSearch()
      requires Valid()
      modifies this
      ensures Valid()
      ensures !IsBlank(old(searchQuery)) ==> activeQuery == old(searchQuery)
      ensures IsBlank(old(searchQuery)) ==> activeQuery == old(activeQuery)
      ensures searchQuery == old(searchQuery) && filters == old(filters)
    {
      if Trim(searchQuery) != "" {
        activeQuery := searchQuery;
      }
    }

    /** Choosing a value in one of the selects. */
    method SetFilters(filters: SearchFilters)
      requires Valid()
      modifies this
      ensures Valid()
      ensures this.filters == filters
      ensures searchQuery == old(searchQuery) && activeQuery == old(activeQuery)
    {
      this.filters := filters;
    }

    /** `clearFilters`: both selects emptied, so the whole answer is listed again. */
    method ClearFilters()
      requires Valid()
      modifies this
      ensures Valid()
      ensures filters == NoFilters
      ensures searchQuery == old(searchQuery) && activeQuery == old(activeQuery)
    {
      filters := NoFilters;
    }

    /** The list on screen for a given server answer. */
    function Shown(answer: seq<File>): seq<File>
      reads this
    {
      FilteredFiles(FetchedFiles(user, activeQuery, answer), filters)
    }
  }
}
