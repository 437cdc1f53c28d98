TestResult.DisplayName,TestResult.Outcome,TestResult.Duration,TestResult.ResourceCount,RandomSeed
Recommender.CollectAppendStep (correctness) (assertion batch 6),Passed,00:00:00.2935668,748226,4
Recommender.CollectAppendStep (well-formedness) (assertion batch 6),Passed,00:00:00.1773593,86420,4
Recommender.CollectAppendStep (well-formedness) (assertion batch 5),Passed,00:00:00.1568705,86417,4
Recommender.CollectAppendStep (correctness) (assertion batch 8),Passed,00:00:00.1480509,87895,4
Recommender.CollectAppendStep (well-formedness) (assertion batch 1),Passed,00:00:00.1182036,27038,4
Recommender.CollectAppendStep (well-formedness) (assertion batch 2),Passed,00:00:00.1173804,29781,4
Recommender.CollectAppendStep (correctness) (assertion batch 13),Passed,00:00:00.1169744,87797,4
Recommender.CollectAppendStep (correctness) (assertion batch 14),Passed,00:00:00.1164503,87808,4
Recommender.CollectAppendStep (well-formedness) (assertion batch 7),Passed,00:00:00.1096344,108148,4
Recommender.CollectAppendStep (correctness) (assertion batch 3),Passed,00:00:00.1071437,92586,4
Recommender.CollectAppendStep (correctness) (assertion batch 1),Passed,00:00:00.1023796,91072,4
Recommender.CollectAppendStep (correctness) (assertion batch 4),Passed,00:00:00.0975972,93226,4
Recommender.CollectAppendStep (correctness) (assertion batch 9),Passed,00:00:00.0968082,98102,4
Recommender.CollectAppendStep (correctness) (assertion batch 2),Passed,00:00:00.0936701,87637,4
Recommender.CollectAppendStep (well-formedness) (assertion batch 8),Passed,00:00:00.0922877,86642,4
Recommender.CollectAppendStep (well-formedness) (assertion batch 3),Passed,00:00:00.0903776,86345,4
Recommender.CollectAppendStep (correctness) (assertion batch 16),Passed,00:00:00.0868725,95515,4
Recommender.CollectAppendStep (well-formedness) (assertion batch 4),Passed,00:00:00.0862861,86407,4
Recommender.CollectAppendStep (correctness) (assertion batch 12),Passed,00:00:00.0859919,98800,4
Recommender.CollectAppendStep (correctness) (assertion batch 5),Passed,00:00:00.0813057,93767,4
Recommender.CollectAppendStep (correctness) (assertion batch 11),Passed,00:00:00.0807361,96784,4
Recommender.CollectAppendStep (correctness) (assertion batch 7),Passed,00:00:00.0775441,97145,4
Recommender.CollectAppendStep (correctness) (assertion batch 15),Passed,00:00:00.0727764,87842,4
Recommender.CollectAppendStep (correctness) (assertion batch 10),Passed,00:00:00.0721363,89992,4
