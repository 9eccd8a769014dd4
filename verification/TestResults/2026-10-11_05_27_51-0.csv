TestResult.DisplayName,TestResult.Outcome,TestResult.Duration,TestResult.ResourceCount,RandomSeed
Text.SplitLower (correctness),Passed,00:00:00.2418865,779858,1
Text.SplitLower (well-formedness),Passed,00:00:00.0854422,31309,1
