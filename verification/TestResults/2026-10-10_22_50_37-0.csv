TestResult.DisplayName,TestResult.Outcome,TestResult.Duration,TestResult.ResourceCount,RandomSeed
Recommender.CollectAppendStep (correctness) (assertion batch 6),Passed,00:00:00.2969561,837722,1
Recommender.CollectAppendStep (well-formedness) (assertion batch 1),Passed,00:00:00.2160962,27036,1
Recommender.CollectAppendStep (well-formedness) (assertion batch 5),Passed,00:00:00.1903436,86391,1
Recommender.CollectAppendStep (well-formedness) (assertion batch 2),Passed,00:00:00.1816215,29786,1
Recommender.CollectAppendStep (well-formedness) (assertion batch 6),Passed,00:00:00.1814131,86391,1
Recommender.CollectAppendStep (well-formedness) (assertion batch 3),Passed,00:00:00.1556675,86325,1
Recommender.CollectAppendStep (well-formedness) (assertion batch 4),Passed,00:00:00.1483361,86378,1
Recommender.CollectAppendStep (correctness) (assertion batch 13),Passed,00:00:00.1304497,87837,1
Recommender.CollectAppendStep (correctness) (assertion batch 14),Passed,00:00:00.1245408,87832,1
Recommender.CollectAppendStep (correctness) (assertion batch 8),Passed,00:00:00.1118228,87919,1
Recommender.CollectAppendStep (well-formedness) (assertion batch 7),Passed,00:00:00.1096391,104493,1
Recommender.CollectAppendStep (correctness) (assertion batch 9),Passed,00:00:00.0976886,98126,1
Recommender.CollectAppendStep (correctness) (assertion batch 10),Passed,00:00:00.0959104,89933,1
Recommender.CollectAppendStep (well-formedness) (assertion batch 8),Passed,00:00:00.0948637,86612,1
Recommender.CollectAppendStep (correctness) (assertion batch 4),Passed,00:00:00.0941636,93248,1
Recommender.CollectAppendStep (correctness) (assertion batch 11),Passed,00:00:00.0936197,96807,1
Recommender.CollectAppendStep (correctness) (assertion batch 2),Passed,00:00:00.0933846,86509,1
Recommender.CollectAppendStep (correctness) (assertion batch 12),Passed,00:00:00.0926173,98862,1
Recommender.CollectAppendStep (correctness) (assertion batch 3),Passed,00:00:00.0913069,92609,1
Recommender.CollectAppendStep (correctness) (assertion batch 7),Passed,00:00:00.0853288,97166,1
Recommender.CollectAppendStep (correctness) (assertion batch 16),Passed,00:00:00.0847001,95620,1
Recommender.CollectAppendStep (correctness) (assertion batch 15),Passed,00:00:00.0833099,87853,1
Recommender.CollectAppendStep (correctness) (assertion batch 5),Passed,00:00:00.0822249,93912,1
Recommender.CollectAppendStep (correctness) (assertion batch 1),Passed,00:00:00.0807137,91043,1
