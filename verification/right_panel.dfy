/**
 * The type breakdown of the side panel (client/src/components/Layout/RightPanel.tsx), which
 * carries its own copies of the colour table and the percentage formula.
 */
module RightPanel {
  import opened Wrappers
  import opened Lists
  import opened JsMath
  import Routes
  import Statistics

  /** The panel's own `getFileTypeColor`. */
  function FileTypeColor(fileType: string): string {
    if fileType == "pdf" then "bg-red-500"
    else if fileType == "docx" then "bg-blue-500"
    else if fileType == "xlsx" then "bg-green-500"
    else if fileType == "png" || fileType == "jpg" || fileType == "jpeg" then "bg-purple-500"
    else "bg-slate-500"
  }

  /** `fileTypes[type]`: the first entry with that key, if any. */
  function Lookup(fileTypes: seq<(string, nat)>, fileType: string): Option<nat> {
    if fileTypes == [] then None
    else if fileTypes[0].0 == fileType then Some(fileTypes[0].1)
    else Lookup(fileTypes[1..], fileType)
  }

  /**
   * `getFileTypePercentage`: 0 without a histogram or when all counts are 0; `None` stands for
   * the NaN that a type absent from a non-empty histogram gives.
   */
  function FileTypePercentage(fileTypes: Option<seq<(string, nat)>>, fileType: string): Option<int> {
    if fileTypes.None? then Some(0)
    else
      var total := Sum(fileTypes.value, Routes.Tally);
      if total <= 0 then Some(0)
      else
        var count := Lookup(fileTypes.value, fileType);
        if count.None? then None else Some(RoundDiv(100 * count.value, total))
  }

  predicate UniqueKeys(fileTypes: seq<(string, nat)>) {
    forall i, j :: 0 <= i < j < |fileTypes| ==> fileTypes[i].0 != fileTypes[j].0
  }

  /** The panel colours every type as the statistics page does. */
  lemma SameColors(fileType: string)
    ensures FileTypeColor(fileType) == Statistics.FileTypeColor(fileType)
  {
  }

  /** With keys each listed once, looking up an entry's key finds that entry's count. */
  lemma {:induction false} LookupAt(fileTypes: seq<(string, nat)>, i: nat)
    requires UniqueKeys(fileTypes) && i < |fileTypes|
    ensures Lookup(fileTypes, fileTypes[i].0) == Some(fileTypes[i].1)
  {
    if i > 0 {
      assert fileTypes[0].0 != fileTypes[i].0;
      LookupAt(fileTypes[1..], i - 1);
    }
  }

  /**
   * No histogram or no files gives 0; otherwise, for every listed type, the panel shows the
   * same figure as the statistics page's row for it, which lies in 0..100.
   */
  lemma FileTypePercentageSpec(fileTypes: seq<(string, nat)>, fileType: string)
    ensures FileTypePercentage(None, fileType) == Some(0)
    ensures Sum(fileTypes, Routes.Tally) == 0 ==> FileTypePercentage(Some(fileTypes), fileType) == Some(0)
    ensures UniqueKeys(fileTypes) ==> forall i :: 0 <= i < |fileTypes| ==>
      FileTypePercentage(Some(fileTypes), fileTypes[i].0) == Some(Statistics.Rows(fileTypes)[i].percentage)
      && 0 <= Statistics.Rows(fileTypes)[i].percentage <= 100
  {
    SumNonNegative(fileTypes, Routes.Tally);
    Statistics.RowsInRange(fileTypes);
    if UniqueKeys(fileTypes) {
      forall i | 0 <= i < |fileTypes|
        ensures FileTypePercentage(Some(fileTypes), fileTypes[i].0) == Some(Statistics.Rows(fileTypes)[i].percentage)
      {
        LookupAt(fileTypes, i);
      }
    }
  }

  /** A type missing from a histogram that has files yields NaN, not 0. */
  lemma MissingTypeIsNaN(fileTypes: seq<(string, nat)>, fileType: string)
    requires Sum(fileTypes, Routes.Tally) > 0
    requires forall i :: 0 <= i < |fileTypes| ==> fileTypes[i].0 != fileType
    ensures FileTypePercentage(Some(fileTypes), fileType) == None
  {
    LookupMissing(fileTypes, fileType);
  }

  lemma {:induction false} LookupMissing(fileTypes: seq<(string, nat)>, fileType: string)
    requires forall i :: 0 <= i < |fileTypes| ==> fileTypes[i].0 != fileType
    ensures Lookup(fileTypes, fileType) == None
  {
    if fileTypes != [] {
      assert fileTypes[0].0 != fileType;
      LookupMissing(fileTypes[1..], fileType);
    }
  }

  /** The histogram the stats route builds lists each type once, so every row agrees. */
  lemma ServerHistogramKeysUnique(types: seq<string>)
    ensures UniqueKeys(Routes.TypeHistogram(types))
  {
    var h := Routes.TypeHistogram(types);
    Routes.TypeHistogramSpec(types);
    DistinctSpec(types);
    KeysAt(h);
  }

  lemma {:induction false} KeysAt(h: seq<(string, nat)>)
    ensures |Routes.Keys(h)| == |h|
    ensures forall i :: 0 <= i < |h| ==> Routes.Keys(h)[i] == h[i].0
  {
    if h != [] {
      KeysAt(h[1..]);
    }
  }
}
