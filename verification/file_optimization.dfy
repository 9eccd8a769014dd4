/**
 * The presentation thresholds of client/src/hooks/useFileOptimization.tsx: step functions of
 * the number of files and the view mode in use.
 */
module FileOptimization {
  import opened Wrappers
  import opened ClientTypes

  /** Density order of the view modes: cards < compact < table. */
  function Density(m: ViewMode): nat {
    match m
    case Cards => 0
    case Compact => 1
    case Table => 2
  }

  function OptimalViewMode(totalFiles: int): ViewMode {
    if totalFiles > 5000 then Table
    else if totalFiles > 1000 then Compact
    else Cards
  }

  function OptimalPageSize(totalFiles: int): int {
    if totalFiles > 10000 then 100
    else if totalFiles > 5000 then 50
    else if totalFiles > 1000 then 25
    else if totalFiles > 200 then 15
    else 12
  }

  predicate ShouldAutoSwitch(totalFiles: int, current: ViewMode) {
    (totalFiles > 1000 && current == Cards) || (totalFiles > 5000 && current == Compact)
  }

  const WarningOver10000: string :=
    "Avec plus de 10 000 fichiers, la vue cartes peut \U{00EA}tre lente. Utilisez la vue tableau pour de meilleures performances."
  const WarningOver5000: string :=
    "Avec plus de 5 000 fichiers, consid\U{00E9}rez utiliser la vue compacte ou tableau."

  /** `null` is `None`. */
  function PerformanceWarning(totalFiles: int, current: ViewMode): Option<string> {
    if totalFiles > 10000 && current == Cards then Some(WarningOver10000)
    else if totalFiles > 5000 && current == Cards then Some(WarningOver5000)
    else None
  }

  const TipFilters: string := "Utilisez les filtres pour r\U{00E9}duire le nombre de r\U{00E9}sultats"
  const TipKeywords: string := "La recherche par mots-cl\U{00E9}s est plus efficace que le parcours"
  const TipDepartments: string := "Organisez vos fichiers par d\U{00E9}partements pour un acc\U{00E8}s plus rapide"
  const TipArchive: string := "Consid\U{00E9}rez archiver les anciens fichiers pour am\U{00E9}liorer les performances"
  const TipTable: string := "Utilisez la vue tableau pour parcourir rapidement de grandes quantit\U{00E9}s"

  /** The tips array, grown by three guarded groups of pushes. */
  function OptimizationTips(totalFiles: int): seq<string> {
    (if totalFiles > 1000 then [TipFilters] else [])
    + (if totalFiles > 5000 then [TipKeywords, TipDepartments] else [])
    + (if totalFiles > 10000 then [TipArchive, TipTable] else [])
  }

  /** The view mode is table, compact or cards exactly on the three ranges of the count. */
  lemma ViewModeRanges(n: int)
    ensures OptimalViewMode(n) == Table <==> n > 5000
    ensures OptimalViewMode(n) == Compact <==> 1000 < n <= 5000
    ensures OptimalViewMode(n) == Cards <==> n <= 1000
  {
  }

  /** More files never give a less dense view mode. */
  lemma ViewModeMonotone(m: int, n: int)
    requires m <= n
    ensures Density(OptimalViewMode(m)) <= Density(OptimalViewMode(n))
  {
  }

  /** The page size is one of five values, 12 up to 200 files, and grows with the count. */
  lemma PageSizeSpec(m: int, n: int)
    requires m <= n
    ensures OptimalPageSize(n) in {12, 15, 25, 50, 100}
    ensures n <= 200 ==> OptimalPageSize(n) == 12
    ensures OptimalPageSize(m) <= OptimalPageSize(n)
  {
  }

  /**
   * An automatic switch is advised exactly when the current mode is less dense than the
   * optimal one, so never from the table view.
   */
  lemma AutoSwitchIffLessDense(n: int, current: ViewMode)
    ensures ShouldAutoSwitch(n, current) <==> Density(current) < Density(OptimalViewMode(n))
    ensures !ShouldAutoSwitch(n, Table)
  {
  }

  /**
   * A warning is shown only in the cards view beyond 5000 files; beyond 10000 the stronger
   * message wins.
   */
  lemma WarningSpec(n: int, current: ViewMode)
    ensures PerformanceWarning(n, current).Some? <==> current == Cards && n > 5000
    ensures current == Cards && n > 10000 ==> PerformanceWarning(n, current) == Some(WarningOver10000)
    ensures current == Cards && 5000 < n <= 10000 ==> PerformanceWarning(n, current) == Some(WarningOver5000)
  {
  }

  /** Zero, one, three or five tips on the four ranges of the count. */
  lemma TipsCount(n: int)
    ensures n <= 1000 ==> |OptimizationTips(n)| == 0
    ensures 1000 < n <= 5000 ==> |OptimizationTips(n)| == 1
    ensures 5000 < n <= 10000 ==> |OptimizationTips(n)| == 3
    ensures n > 10000 ==> |OptimizationTips(n)| == 5
  {
  }

  /** The tips for a smaller count are a prefix of the tips for a larger one. */
  lemma TipsPrefix(m: int, n: int)
    requires m <= n
    ensures OptimizationTips(m) <= OptimizationTips(n)
  {
  }
}
