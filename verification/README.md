# Retrieval-and-scoring kernel of a question-answering pipeline

This project models, in Dafny, the small kernel of a question-answering
service built on Elasticsearch and an extractive reader model:

- **Passage retrieval** (`get_context`): one `match` query of the question on
  the `context` field of an index, bounded by `size`; the result is the hits'
  `_source.context` texts in hit order. The search backend is an abstract
  function from requests to responses (or errors), held by a `SearchClient`
  object that records every request it issues.
- **Context assembly** (`update_context`, and the join inside `predict`): the
  passages joined by single spaces in retrieval order, written into the row's
  `context` key.
- **Reciprocal-rank scoring** (`calculate_element_mrr`): `1/(i+1)` for the
  first position `i` whose passage equals the gold context exactly, `0` when
  no passage does, written into the row's `mrr` key.
- **Answer decision** (`predict`): the reader is asked once with the request
  text and the joined context; its answer is returned when its score is
  strictly above the threshold, otherwise the sentinel `"Answer is not found"`.
- **Retrieval evaluation** (`main` in retrieval mode): every row scored on its
  own, then `Counter` over the `mrr` column and the two logged ratios; and the
  `val_set_size` selection guard.

Dataset rows are Python dicts; they are `map<string, Value>` here, and the
in-place update of a row is a method of the `Example` class whose `fields`
hold that map. Python exceptions (`KeyError`, `TypeError`, `IndexError`,
`ZeroDivisionError`, errors raised by the search backend) are modelled as
`Failure` results and propagate as in the code. Scores, thresholds and ratios
are `real`: `1/(i+1)` and the ratios are exact.

Files: `wrappers.dfy` (result types and the exception taxonomy),
`retrieval.dfy`, `assembly.dfy`, `ranking.dfy`, `examples_update.dfy` (all
from src/utils.py), `serving.dfy` (src/main.py), `evaluation.dfy`
(src/evaluate_pipeline.py).

## Model

| member | source | states |
|---|---|---|
| Retrieval.Passages | src/utils.py:45 | one passage per hit, in hit order, each the hit's `_source["context"]`; a hit without that field raises `KeyError("context")`, and exactly then |
| Retrieval.ContextFor | src/utils.py:39-45 | the value of `get_context`: a backend error propagates; otherwise the call succeeds exactly when every hit has a `context` field, a missing one raises `KeyError("context")`, and a success has one passage per hit, each that hit's `context`, in hit order |
| Retrieval.ContextForLength | src/utils.py:45 | a successful retrieval has as many passages as the response has hits, so at most `size` when the backend honours `size` |
| Retrieval.SearchClient.Search | src/utils.py:39-43 | one search round trip: the request is appended to the client's log and the backend's answer is returned |
| Retrieval.GetContext | src/utils.py:24-45 | exactly one search, on the given index and size, with a `match` query of the question on field `"context"`; the result is the passages of the response, and a backend error propagates |
| Assembly.Join | src/utils.py:62-64 | `" ".join`: no passages give `""`; the context starts with the first passage, followed by a space when there are more |
| Assembly.SplitJoin | src/utils.py:62-64 | splitting the joined context on single spaces gives back the passages in retrieval order, when no passage contains a space |
| Assembly.JoinAppend | src/utils.py:62-64 | one more passage appends one space and that passage to the context |
| Assembly.JoinLength | src/utils.py:62-64 | the context length is the passages' total length plus one separator per neighbouring pair |
| Assembly.JoinEmpty | src/main.py:58-65 | the joined context is empty exactly when nothing was retrieved or the single passage is empty |
| Ranking.FirstIndex | src/utils.py:84 | `list.index`: a position holding the gold passage with no earlier position holding it |
| Ranking.ReciprocalRank | src/utils.py:83-87 | the score is 0 exactly when the gold passage is not an element of the list, and `1/(i+1)` for the first index `i` holding it |
| Ranking.ReciprocalRankRange | src/utils.py:83-87 | the score is 0 or `1/k` for some `1 <= k <= |retrieved|`, hence in [0, 1] |
| Ranking.ReciprocalRankIsOne | src/utils.py:83-87 | the score is 1 exactly when the first retrieved passage is the gold passage |
| Ranking.ReciprocalRankFirstOccurrence | src/utils.py:84 | passages after the first occurrence, later duplicates included, do not change the score |
| Ranking.ReciprocalRankSingle | src/utils.py:83-87 | with at most one passage the score is 0 or 1 |
| Ranking.ReciprocalRankScenarios | tests/test_utils.py:93-120 | second place scores 0.5, a duplicated first place 1, a miss 0, and passages that only contain the gold text score 0 |
| Examples.GoldRank | src/utils.py:83-87 | the score of a row's gold value, which a non-text value never earns; always in [0, 1] |
| Examples.WithContext | src/utils.py:62-65 | a row without `"question"` raises `KeyError`; otherwise only key `"context"` is written and every other key keeps its value |
| Examples.WithMrr | src/utils.py:82-88 | a row without `"question"` raises `KeyError`; otherwise only key `"mrr"` is written, to a number in [0, 1], and every other key keeps its value |
| Examples.WithMrrFails | src/utils.py:82-85 | for a row with a question: a search error propagates; without `"context"` the row raises `KeyError("context")` once the search succeeded; with both keys and a successful search the row is always scored |
| Examples.WithContextJoins | src/utils.py:62-64 | the stored context is the retrieved passages joined by single spaces; an empty retrieval stores `""`; a search error propagates |
| Examples.WithMrrScore | src/utils.py:83-87 | the stored mrr is 0 iff the gold context is not an exact element of the retrieval, is `1/(i+1)` at its first index `i`, and is 1 iff it was retrieved first |
| Examples.WithMrrSingle | src/utils.py:82-87 | with `size = 1` and a backend honouring it, the stored mrr is 0 or 1 |
| Examples.Example.UpdateContext | src/utils.py:48-65 | one retrieval for `example["question"]` with the given index and size, then the row becomes the `WithContext` row; on an exception it is unchanged |
| Examples.Example.CalculateElementMrr | src/utils.py:68-88 | one retrieval for `example["question"]` with the given index and size, then the row becomes the `WithMrr` row; on an exception it is unchanged |
| Serving.Reader.Answer | src/main.py:66 | one reader invocation is recorded with its question and context, and the model's candidate is returned |
| Serving.Decide | src/main.py:68-72 | the response is the reader's answer when its score is strictly above the threshold and the sentinel otherwise, never anything else |
| Serving.DecideThreshold | src/main.py:68-72 | lowering the threshold keeps an answer that was returned, and a score equal to the threshold gives the sentinel |
| Serving.DecideScenarios | tests/test_main.py:19-45 | score 0.8 against 0.5 returns the answer, score 0.3 returns the sentinel |
| Serving.Predict | src/main.py:55-73 | one search for the request text with the configured index and size; unless it raised, exactly one reader call with the joined passages, also on an empty retrieval, and the thresholded answer |
| Serving.SentinelLacksPeriod | src/main.py:71 | the code's sentinel is the tests' expected text without its final period |
| Serving.DecideAsTested | tests/test_main.py:45 | the decision with the tests' sentinel `"Answer is not found."` |
| Serving.PredictAsTested | tests/test_main.py:49-58 | the handler the tests expect: an empty context skips the reader and returns the tests' sentinel |
| Evaluation.SelectSubset | src/evaluate_pipeline.py:74-75 | `None` raises `TypeError`; any number truncates to that many leading rows whatever the dataset length, and a number past the length raises `IndexError` |
| Evaluation.SelectSubsetIntended | src/evaluate_pipeline.py:74-75 | the guard as intended: no size, or one not below the length, keeps the whole dataset; a smaller size keeps that many leading rows |
| Evaluation.SelectSubsetAgrees | src/evaluate_pipeline.py:74-75 | the written and the intended guard agree for every size up to the dataset length |
| Evaluation.SelectSubsetGuardDiffers | src/evaluate_pipeline.py:74-75 | where they disagree: `None`, and a size above the length |
| Evaluation.ScoreDataset | src/evaluate_pipeline.py:93-100 | every row scored on its own with `calculate_element_mrr` and the same index and size; success iff every row succeeds, and a failure is some row's failure |
| Evaluation.MrrColumn | src/evaluate_pipeline.py:101 | the `mrr` column: one entry per row, in row order |
| Evaluation.Count | src/evaluate_pipeline.py:101 | `Counter(column)[v]`: the multiplicity of `v` in the column taken as a multiset, at most the column length |
| Evaluation.Ratio | src/evaluate_pipeline.py:107-108 | true division of a count by the dataset size: the number that multiplied by the size gives the count, non-negative, and at most 1 when the count is at most the size |
| Evaluation.CountsDisjoint | src/evaluate_pipeline.py:101 | the counts of ones and of zeros together never exceed the dataset size |
| Evaluation.CountsCover | src/evaluate_pipeline.py:101 | when every mrr is 0 or 1, the two counts add up to the dataset size |
| Evaluation.RetrievalMetrics | src/evaluate_pipeline.py:101-108 | an empty dataset raises `ZeroDivisionError`, and only then; the first figure is the share of entries equal to 1 and the second the share equal to 0 (multiplicities in the column); both lie in [0, 1] and their sum is at most 1 |
| Evaluation.RetrievalMode | src/evaluate_pipeline.py:93-108 | retrieval mode on an empty dataset raises `ZeroDivisionError` |
| Evaluation.CountOnesIsTopHits | src/evaluate_pipeline.py:101-107 | the count of mrr values equal to 1 is the number of rows whose gold passage was retrieved first |
| Evaluation.LoggedMrrIsHitRate | src/evaluate_pipeline.py:107 | the figure logged as "MRR" is the fraction of rows whose gold passage was retrieved first |
| Evaluation.CountZerosIsMisses | src/evaluate_pipeline.py:101-108 | the count of mrr values equal to 0 is the number of rows whose gold passage is not, as a whole string, among the retrieved passages |
| Evaluation.MissRatioIsMissRate | src/evaluate_pipeline.py:108 | the ratio logged as "answers not captured within selected responses" is the fraction of rows whose gold passage was not retrieved at all |
| Evaluation.SingleContextPartition | src/evaluate_pipeline.py:101-108 | with `context_size = 1` and a backend honouring it, the two logged ratios add up to exactly 1 |
| Evaluation.MeanReciprocalRank | src/evaluate_pipeline.py:107 | the mean of the mrr column, which is what the "MRR" label names; an empty dataset raises |
| Evaluation.CountOnesAtMostSum | src/evaluate_pipeline.py:101 | over non-negative scores the count of ones is at most their sum |
| Evaluation.LoggedMrrAtMostMean | src/evaluate_pipeline.py:107 | the logged figure never exceeds the mean reciprocal rank |
| Evaluation.LoggedMrrDiffersFromMean | src/evaluate_pipeline.py:107 | a single second-place hit logs 0 while the mean reciprocal rank is 0.5 |

## Findings

The members in the "as-written member" column model the code as written and
are what the model of the program uses, since that is what the program does;
the corrected members stand beside them with the intended property proved.

| source | as written | input that shows it | evidently intended | confidence | as-written member | corrected member |
|---|---|---|---|---|---|---|
| src/evaluate_pipeline.py:74 | `val_set_size is not None or val_set_size < len(dataset)` | `val_set_size` left at its default `None` raises `TypeError`; `val_set_size = 5` on a 2-row dataset selects rows past the end (`SelectSubsetGuardDiffers`) | `is not None and ... <`: keep the whole dataset unless a smaller size is given | not executed; high | Evaluation.SelectSubset | Evaluation.SelectSubsetIntended |
| src/main.py:71 | sentinel `"Answer is not found"` | score 0.3 against threshold 0.5: the tests expect `"Answer is not found."` (`SentinelLacksPeriod`) | the sentinel with a final period | not executed; medium, either spelling may be the intended one | Serving.Decide | Serving.DecideAsTested |
| src/main.py:66 | the reader is called on every request | a search returning no hits: the reader runs on context `""` although the tests expect it not to be called | an empty context returns the sentinel without calling the reader | not executed; medium | Serving.Predict | Serving.PredictAsTested |
| src/evaluate_pipeline.py:107 | the figure labelled "MRR" is `cnt[1] / len(dataset)` | an mrr column `[0.5]` logs 0 while its mean reciprocal rank is 0.5 (`LoggedMrrDiffersFromMean`) | the mean of the mrr column | not executed; medium, the figure is a correct hit rate under the wrong name | Evaluation.RetrievalMetrics | Evaluation.MeanReciprocalRank |

## Left out

- `get_config` (src/utils.py:9-21): reading configuration files. The index name, context size and threshold are plain parameters (`Serving.Hyperparams`).
- `get_es` (src/utils.py:91-105) and the Elasticsearch client internals: the network, authentication and the backend's ranking are not modelled; the backend is an arbitrary function from requests to responses or errors.
- Serving.Predict: the `float(...)` parse of `qa_threshold` (src/main.py:70) is not modelled, the threshold is a `real`; `context_size` is read from the configuration as a string and handed to the search unchanged, here it is an `int`.
- Serving.Reader.Answer: the reader model is an opaque total function; its inference, and any exception it might raise, are not modelled.
- The FastAPI application, the root endpoint, the shutdown hook and the request/response models (src/main.py:28-53): web plumbing.
- `parse_arguments` and the dataset-path check (src/evaluate_pipeline.py:15-63): command-line and filesystem handling.
- `load_dataset` and `shuffle(seed=42)` (src/evaluate_pipeline.py:70-71): the selection guard and retrieval mode take the already shuffled rows as input.
- Evaluation.SelectSubset: how `datasets` treats a negative size or a non-empty selection of an empty dataset is library behaviour; the model selects no rows for a negative size and raises `IndexError` for any size above the dataset length.
- Evaluation.ScoreDataset: `dataset.map`'s batching, caching and copying of rows are not modelled; rows are scored one after another and the first exception ends the run. The search requests issued during the run are stated per row by `Examples.Example.CalculateElementMrr`, not for the run as a whole.
- The `reader` and `e2e` evaluation modes (src/evaluate_pipeline.py:112-131): they delegate to the external SQuAD evaluator; `update_context`, which e2e mode maps over the dataset, is modelled on its own.
- Logging (src/__init__.py and the logging calls): the logged ratios are modelled as values, not their formatting.
- Evaluation.SingleContextPartition: it assumes the backend returns no more hits than `size`, a property of Elasticsearch, not of this code.
