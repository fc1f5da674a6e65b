TestResult.DisplayName,TestResult.Outcome,TestResult.Duration,TestResult.ResourceCount,RandomSeed
Chat.ExecuteTsOutcomes (correctness),Passed,00:00:00.6411836,1858323,0
Chat.ExecuteTsOutcomes (well-formedness),Passed,00:00:00.5830848,1363311,0
Remix.ExecuteTsOutcomes (well-formedness),Passed,00:00:00.3187767,260023,0
Remix.ExecuteTsOutcomes (correctness),Passed,00:00:00.3051979,292799,0
