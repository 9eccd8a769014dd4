/**
 * The type breakdown of the statistics page (client/src/pages/Statistics.tsx): one row per
 * entry of the server's type histogram, with its rounded share of all files and its colour.
 */
module Statistics {
  import opened Lists
  import opened JsMath
  import Routes

  /** `getFileTypeColor`: exact, lower-case type names only. */
  function FileTypeColor(fileType: string): string {
    match fileType
    case "pdf" => "bg-red-500"
    case "docx" => "bg-blue-500"
    case "xlsx" => "bg-green-500"
    case "png" => "bg-purple-500"
    case "jpg" => "bg-purple-500"
    case "jpeg" => "bg-purple-500"
    case _ => "bg-slate-500"
  }

  /** `total > 0 ? Math.round((count / total) * 100) : 0`, in exact arithmetic. */
  function Percentage(count: int, total: int): int {
    if total > 0 then RoundDiv(100 * count, total) else 0
  }

  datatype TypeRow = TypeRow(fileType: string, count: nat, percentage: int, color: string)

  /** The rows, in the histogram's order; the total is the sum of all counts. */
  function Rows(fileTypes: seq<(string, nat)>): seq<TypeRow> {
    var total := Sum(fileTypes, Routes.Tally);
    seq(|fileTypes|, i requires 0 <= i < |fileTypes| =>
      TypeRow(fileTypes[i].0, fileTypes[i].1, Percentage(fileTypes[i].1, total), FileTypeColor(fileTypes[i].0)))
  }

  /**
   * Colours: red for pdf, blue for docx, green for xlsx, purple for the three image types, and
   * slate for anything else, including upper-case names and the other accepted types.
   */
  lemma FileTypeColorSpec(fileType: string)
    ensures FileTypeColor(fileType) == "bg-purple-500" <==> fileType in {"png", "jpg", "jpeg"}
    ensures FileTypeColor(fileType) == "bg-slate-500" <==> fileType !in {"pdf", "docx", "xlsx", "png", "jpg", "jpeg"}
    ensures FileTypeColor("PDF") == "bg-slate-500" && FileTypeColor("doc") == "bg-slate-500"
  {
  }

  /**
   * No files gives 0; otherwise the percentage is the integer nearest to 100·count/total,
   * halves going up, and for a share of the whole it lies in 0..100.
   */
  lemma PercentageSpec(count: int, total: int)
    ensures total <= 0 ==> Percentage(count, total) == 0
    ensures total > 0 ==> var p := Percentage(count, total);
      2 * total * p - total <= 200 * count < 2 * total * p + total
    ensures 0 <= count <= total && total > 0 ==> 0 <= Percentage(count, total) <= 100
  {
    if 0 <= count <= total && total > 0 {
      PercentBounds(count, total);
    }
  }

  /** Each count of a histogram is at most the sum of all its counts. */
  lemma {:induction false} EntryAtMostTotal(fileTypes: seq<(string, nat)>, i: nat)
    requires i < |fileTypes|
    ensures fileTypes[i].1 <= Sum(fileTypes, Routes.Tally)
  {
    SumNonNegative(fileTypes[1..], Routes.Tally);
    if i > 0 {
      EntryAtMostTotal(fileTypes[1..], i - 1);
    }
  }

  /** Every displayed percentage lies in 0..100, one row per histogram entry. */
  lemma RowsInRange(fileTypes: seq<(string, nat)>)
    ensures |Rows(fileTypes)| == |fileTypes|
    ensures forall i :: 0 <= i < |fileTypes| ==> 0 <= Rows(fileTypes)[i].percentage <= 100
  {
    forall i | 0 <= i < |fileTypes| ensures 0 <= Rows(fileTypes)[i].percentage <= 100 {
      EntryAtMostTotal(fileTypes, i);
      PercentageSpec(fileTypes[i].1, Sum(fileTypes, Routes.Tally));
    }
  }

  /**
   * For the histogram the stats route builds, each row's percentage is the rounded share of
   * the files having that type among all the files counted.
   */
  lemma RowsOfServerStats(types: seq<string>)
    ensures forall r :: r in Rows(Routes.TypeHistogram(types)) ==>
      r.percentage == Percentage(r.count, |types|)
  {
    Routes.TypeHistogramSpec(types);
  }

  /** Rounded shares need not add up to 100: three equal types show 33% each. */
  lemma SharesNeedNotAddUp()
    ensures var rows := Rows([("pdf", 1), ("png", 1), ("docx", 1)]);
      rows[0].percentage + rows[1].percentage + rows[2].percentage == 99
  {
    var h: seq<(string, nat)> := [("pdf", 1), ("png", 1), ("docx", 1)];
    assert Sum(h, Routes.Tally) == 3 by {
      assert h[1..][1..][1..] == [];
    }
    RoundDivUnique(100, 3, 33);
  }
}
