/** The modelled part of `main` in src/evaluate_pipeline.py: the
    `val_set_size` selection guard, and the `retrieval` mode, which scores
    every row with `calculate_element_mrr` and logs two ratios taken from a
    `Counter` over the `mrr` column. */
module Evaluation {
  import opened Wrappers
  import opened Retrieval
  import opened Ranking
  import opened Examples

  // ---------------------------------------------------------------------
  // Subset selection

  /** `if args.val_set_size is not None or args.val_set_size < len(dataset):
      dataset = dataset.select(range(args.val_set_size))`. With a number the
      left operand of `or` is already true, so the dataset is cut to its first
      `val_set_size` rows whatever its length; `select` rejects indices past
      the end. With `None` the right operand compares `None` with an int. */
  function SelectSubset<T>(dataset: seq<T>, valSetSize: Option<int>): (r: Result<seq<T>>)
    ensures valSetSize.None? ==> r == Failure(TypeError)
    ensures r.Success? <==> valSetSize.Some? && valSetSize.value <= |dataset|
    ensures r.Success? ==>
      r.value <= dataset && |r.value| == (if valSetSize.value < 0 then 0 else valSetSize.value)
    ensures r.Failure? && valSetSize.Some? ==> r.error == IndexError
  {
    match valSetSize
    case None => Failure(TypeError)
    case Some(n) =>
      if n > |dataset| then Failure(IndexError)
      else if n <= 0 then Success([])
      else Success(dataset[..n])
  }

  /** The guard as evidently intended (`is not None and ... <`): cut the
      dataset only when a size smaller than the dataset is given. */
  function SelectSubsetIntended<T>(dataset: seq<T>, valSetSize: Option<int>): (r: seq<T>)
    ensures r <= dataset
    ensures valSetSize.None? ==> r == dataset
    ensures valSetSize.Some? && valSetSize.value >= |dataset| ==> r == dataset
    ensures valSetSize.Some? && valSetSize.value < |dataset| ==>
      |r| == (if valSetSize.value < 0 then 0 else valSetSize.value)
  {
    match valSetSize
    case None => dataset
    case Some(n) =>
      if n >= |dataset| then dataset
      else if n <= 0 then []
      else dataset[..n]
  }

  /** The guard as written and as intended agree on every size up to the
      dataset length. */
  lemma SelectSubsetAgrees<T>(dataset: seq<T>, n: int)
    requires n <= |dataset|
    ensures SelectSubset(dataset, Some(n)) == Success(SelectSubsetIntended(dataset, Some(n)))
  {
    assert dataset[..|dataset|] == dataset;
  }

  /** Where they differ: no size at all raises instead of keeping the whole
      dataset, and a size above the dataset length raises instead of keeping
      the whole dataset. */
  lemma SelectSubsetGuardDiffers()
    ensures SelectSubset([10, 20, 30], None) == Failure(TypeError)
    ensures SelectSubsetIntended([10, 20, 30], None) == [10, 20, 30]
    ensures SelectSubset([10, 20], Some(5)) == Failure(IndexError)
    ensures SelectSubsetIntended([10, 20], Some(5)) == [10, 20]
  {
  }

  // ---------------------------------------------------------------------
  // Retrieval mode

  /** `dataset.map(calculate_element_mrr, fn_kwargs=...)`: every row scored on
      its own, with the same index and size; the first exception ends it. */
  function ScoreDataset(rows: seq<Row>, backend: Backend, index: string, size: int): (r: Result<seq<Row>>)
    ensures r.Success? <==> forall i :: 0 <= i < |rows| ==> WithMrr(rows[i], backend, index, size).Success?
    ensures r.Success? ==>
      |r.value| == |rows| &&
      forall i :: 0 <= i < |rows| ==> WithMrr(rows[i], backend, index, size) == Success(r.value[i])
    ensures r.Failure? ==>
      exists i :: 0 <= i < |rows| && WithMrr(rows[i], backend, index, size) == Failure(r.error)
  {
    if |rows| == 0 then Success([])
    else
      match WithMrr(rows[0], backend, index, size)
      case Failure(e) => Failure(e)
      case Success(row) =>
        match ScoreDataset(rows[1..], backend, index, size)
        case Failure(e) => Failure(e)
        case Success(rest) => Success([row] + rest)
  }

  /** Rows that carry a numeric `mrr`. */
  predicate Scored(rows: seq<Row>)
  {
    forall i :: 0 <= i < |rows| ==> "mrr" in rows[i] && rows[i]["mrr"].Number?
  }

  /** The column `dataset["mrr"]`. */
  function MrrColumn(rows: seq<Row>): (column: seq<real>)
    requires Scored(rows)
    ensures |column| == |rows|
    ensures forall i :: 0 <= i < |rows| ==> column[i] == rows[i]["mrr"].number
  {
    if |rows| == 0 then [] else [rows[0]["mrr"].number] + MrrColumn(rows[1..])
  }

  /** `Counter(column)[v]`: how many entries equal `v`, which is the
      multiplicity of `v` in the column taken as a multiset. */
  function Count(column: seq<real>, v: real): (n: nat)
    ensures n == multiset(column)[v]
    ensures n <= |column|
  {
    if |column| == 0 then 0
    else
      assert column == [column[0]] + column[1..];
      (if column[0] == v then 1 else 0) + Count(column[1..], v)
  }

  /** Sum of a column. */
  function Sum(column: seq<real>): real
  {
    if |column| == 0 then 0.0 else column[0] + Sum(column[1..])
  }

  /** The two logged figures: the one labelled "MRR" and the ratio of
      answers not captured within the selected responses. */
  datatype RetrievalReport = RetrievalReport(loggedMrr: real, missRatio: real)

  /** `k / n` for counts, as Python's true division computes it: the
      number that `n` times gives `k`, in [0, 1] when `k <= n`. */
  function Ratio(k: nat, n: nat): (q: real)
    requires n > 0
    ensures q * n as real == k as real
    ensures 0.0 <= q
    ensures k <= n ==> q <= 1.0
  {
    DivBounds(k as real, n as real);
    k as real / n as real
  }

  /** Real division by a positive number inverts multiplication and keeps
      bounds. */
  lemma DivBounds(a: real, n: real)
    requires n > 0.0
    ensures (a / n) * n == a
    ensures 0.0 <= a ==> 0.0 <= a / n
    ensures a <= n ==> a / n <= 1.0
  {
    var q := a / n;
    assert q * n == a;
  }

  lemma DivMonotone(a: real, b: real, n: real)
    requires n > 0.0 && a <= b
    ensures a / n <= b / n
  {
    DivBounds(b - a, n);
    assert (b - a) / n == b / n - a / n;
  }

  /** Multiplication by a positive number is injective. */
  lemma MulCancel(a: real, b: real, d: real)
    requires d > 0.0 && a * d == b * d
    ensures a == b
  {
    assert (a - b) * d == 0.0;
  }

  /** Ratios over the same total add up like their counts. */
  lemma RatioAdd(a: nat, b: nat, n: nat)
    requires n > 0
    ensures Ratio(a, n) + Ratio(b, n) == Ratio(a + b, n)
  {
    var x, y, z, d := Ratio(a, n), Ratio(b, n), Ratio(a + b, n), n as real;
    assert (a + b) as real == a as real + b as real;
    assert (x + y) * d == x * d + y * d;
    assert (x + y) * d == a as real + b as real;
    assert z * d == a as real + b as real;
    MulCancel(x + y, z, d);
  }

  /** Two disjoint counts out of `n` give ratios in [0, 1] whose sum is at
      most 1, and exactly 1 when the counts cover all `n`. */
  lemma RatiosBounded(hits: nat, misses: nat, n: nat)
    requires n > 0 && hits + misses <= n
    ensures 0.0 <= Ratio(hits, n) <= 1.0 && 0.0 <= Ratio(misses, n) <= 1.0
    ensures Ratio(hits, n) + Ratio(misses, n) <= 1.0
    ensures hits + misses == n ==> Ratio(hits, n) + Ratio(misses, n) == 1.0
  {
    RatioAdd(hits, misses, n);
    if hits + misses == n {
      MulCancel(Ratio(n, n), 1.0, n as real);
    }
  }

  /** No entry is counted both as a 1 and as a 0. */
  lemma {:induction false} CountsDisjoint(column: seq<real>)
    ensures Count(column, 1.0) + Count(column, 0.0) <= |column|
  {
    if |column| > 0 {
      CountsDisjoint(column[1..]);
    }
  }

  /** When every entry is 0 or 1, the two counts cover the column. */
  lemma {:induction false} CountsCover(column: seq<real>)
    requires forall i :: 0 <= i < |column| ==> column[i] == 0.0 || column[i] == 1.0
    ensures Count(column, 1.0) + Count(column, 0.0) == |column|
  {
    if |column| > 0 {
      CountsCover(column[1..]);
    }
  }

  /** `cnt[1] / len(dataset)` and `cnt[0] / len(dataset)`; an empty dataset
      raises on the division. The first is the share of exact 1s, the second
      the share of exact 0s; both lie in [0, 1] and their sum is at most 1. */
  function RetrievalMetrics(column: seq<real>): (r: Result<RetrievalReport>)
    ensures r.Failure? <==> |column| == 0
    ensures r.Failure? ==> r.error == ZeroDivisionError
    ensures r.Success? ==>
      && r.value.loggedMrr == Ratio(multiset(column)[1.0], |column|)
      && r.value.missRatio == Ratio(multiset(column)[0.0], |column|)
    ensures r.Success? ==>
      && 0.0 <= r.value.loggedMrr <= 1.0
      && 0.0 <= r.value.missRatio <= 1.0
      && r.value.loggedMrr + r.value.missRatio <= 1.0
  {
    if |column| == 0 then Failure(ZeroDivisionError)
    else
      var hits, misses, n := Count(column, 1.0), Count(column, 0.0), |column|;
      CountsDisjoint(column);
      RatiosBounded(hits, misses, n);
      Success(RetrievalReport(Ratio(hits, n), Ratio(misses, n)))
  }

  /** The whole retrieval mode: score every row, then take the ratios over
      the `mrr` column. */
  function RetrievalMode(rows: seq<Row>, backend: Backend, index: string, size: int): (r: Result<RetrievalReport>)
    ensures |rows| == 0 ==> r == Failure(ZeroDivisionError)
  {
    match ScoreDataset(rows, backend, index, size)
    case Failure(e) => Failure(e)
    case Success(scored) =>
      assert Scored(scored) by {
        forall i | 0 <= i < |scored| ensures "mrr" in scored[i] && scored[i]["mrr"].Number? {
          assert WithMrr(rows[i], backend, index, size) == Success(scored[i]);
        }
      }
      RetrievalMetrics(MrrColumn(scored))
  }

  /** A successful retrieval mode scored every row and took the ratios over
      the scored `mrr` column. */
  lemma RetrievalModeScored(rows: seq<Row>, backend: Backend, index: string, size: int)
    requires RetrievalMode(rows, backend, index, size).Success?
    ensures ScoreDataset(rows, backend, index, size).Success?
    ensures Scored(ScoreDataset(rows, backend, index, size).value)
    ensures RetrievalMode(rows, backend, index, size)
         == RetrievalMetrics(MrrColumn(ScoreDataset(rows, backend, index, size).value))
  {
    var scored: seq<Row> := ScoreDataset(rows, backend, index, size).value;
    forall i | 0 <= i < |scored| ensures "mrr" in scored[i] && scored[i]["mrr"].Number? {
      assert WithMrr(rows[i], backend, index, size) == Success(scored[i]);
    }
  }

  /** The row's gold passage is, as a whole string, the first passage
      retrieved for its question. */
  predicate TopHit(row: Row, backend: Backend, index: string, size: int)
  {
    && "question" in row && "context" in row
    && ContextFor(backend, row["question"], index, size).Success?
    && |ContextFor(backend, row["question"], index, size).value| > 0
    && row["context"] == Text(ContextFor(backend, row["question"], index, size).value[0])
  }

  /** How many rows have their gold passage retrieved first. */
  function TopHits(rows: seq<Row>, backend: Backend, index: string, size: int): nat
  {
    if |rows| == 0 then 0
    else (if TopHit(rows[0], backend, index, size) then 1 else 0) + TopHits(rows[1..], backend, index, size)
  }

  /** The count of ones in the scored column is the number of rows whose
      gold passage was retrieved first. */
  lemma {:induction false} CountOnesIsTopHits(rows: seq<Row>, backend: Backend, index: string, size: int, scored: seq<Row>)
    requires ScoreDataset(rows, backend, index, size) == Success(scored)
    requires Scored(scored)
    ensures Count(MrrColumn(scored), 1.0) == TopHits(rows, backend, index, size)
  {
    if |rows| > 0 {
      var rest := scored[1..];
      assert ScoreDataset(rows[1..], backend, index, size) == Success(rest);
      CountOnesIsTopHits(rows[1..], backend, index, size, rest);
      assert MrrColumn(scored)[1..] == MrrColumn(rest);
      WithMrrScore(rows[0], backend, index, size);
    }
  }

  /** The figure logged as "MRR" is the hit rate at rank 1: the fraction of
      rows whose gold passage was retrieved first. */
  lemma LoggedMrrIsHitRate(rows: seq<Row>, backend: Backend, index: string, size: int)
    requires RetrievalMode(rows, backend, index, size).Success?
    ensures |rows| > 0
    ensures RetrievalMode(rows, backend, index, size).value.loggedMrr
         == Ratio(TopHits(rows, backend, index, size), |rows|)
  {
    RetrievalModeScored(rows, backend, index, size);
    var scored: seq<Row> := ScoreDataset(rows, backend, index, size).value;
    CountOnesIsTopHits(rows, backend, index, size, scored);
  }

  /** The row's gold passage is not, as a whole string, among the passages
      retrieved for its question. */
  predicate Missed(row: Row, backend: Backend, index: string, size: int)
  {
    && "question" in row && "context" in row
    && ContextFor(backend, row["question"], index, size).Success?
    && !(row["context"].Text? && row["context"].text in ContextFor(backend, row["question"], index, size).value)
  }

  /** How many rows miss their gold passage. */
  function Misses(rows: seq<Row>, backend: Backend, index: string, size: int): nat
  {
    if |rows| == 0 then 0
    else (if Missed(rows[0], backend, index, size) then 1 else 0) + Misses(rows[1..], backend, index, size)
  }

  /** The count of zeros in the scored column is the number of rows whose
      gold passage was not retrieved at all. */
  lemma {:induction false} CountZerosIsMisses(rows: seq<Row>, backend: Backend, index: string, size: int, scored: seq<Row>)
    requires ScoreDataset(rows, backend, index, size) == Success(scored)
    requires Scored(scored)
    ensures Count(MrrColumn(scored), 0.0) == Misses(rows, backend, index, size)
  {
    if |rows| > 0 {
      var rest := scored[1..];
      assert ScoreDataset(rows[1..], backend, index, size) == Success(rest);
      CountZerosIsMisses(rows[1..], backend, index, size, rest);
      assert MrrColumn(scored)[1..] == MrrColumn(rest);
      WithMrrScore(rows[0], backend, index, size);
    }
  }

  /** The second logged figure, "answers not captured within selected
      responses", is the fraction of rows whose gold passage is not among the
      retrieved passages. */
  lemma MissRatioIsMissRate(rows: seq<Row>, backend: Backend, index: string, size: int)
    requires RetrievalMode(rows, backend, index, size).Success?
    ensures |rows| > 0
    ensures RetrievalMode(rows, backend, index, size).value.missRatio
         == Ratio(Misses(rows, backend, index, size), |rows|)
  {
    RetrievalModeScored(rows, backend, index, size);
    var scored: seq<Row> := ScoreDataset(rows, backend, index, size).value;
    CountZerosIsMisses(rows, backend, index, size, scored);
  }

  /** With one passage requested from a backend that respects the size, every
      score is 0 or 1, so the two logged ratios add up to exactly 1. */
  lemma SingleContextPartition(rows: seq<Row>, backend: Backend, index: string)
    requires RespectsSize(backend)
    requires RetrievalMode(rows, backend, index, 1).Success?
    ensures RetrievalMode(rows, backend, index, 1).value.loggedMrr
          + RetrievalMode(rows, backend, index, 1).value.missRatio == 1.0
  {
    RetrievalModeScored(rows, backend, index, 1);
    var scored: seq<Row> := ScoreDataset(rows, backend, index, 1).value;
    var column := MrrColumn(scored);
    forall i | 0 <= i < |column| ensures column[i] == 0.0 || column[i] == 1.0 {
      assert WithMrr(rows[i], backend, index, 1) == Success(scored[i]);
      WithMrrSingle(rows[i], backend, index);
    }
    CountsCover(column);
    RatiosBounded(Count(column, 1.0), Count(column, 0.0), |column|);
  }

  // ---------------------------------------------------------------------
  // The mean reciprocal rank that the "MRR" label names

  /** The mean of the `mrr` column; an empty dataset raises. */
  function MeanReciprocalRank(column: seq<real>): (r: Result<real>)
    ensures r.Failure? <==> |column| == 0
    ensures r.Success? ==> r.value * |column| as real == Sum(column)
  {
    if |column| == 0 then Failure(ZeroDivisionError)
    else Success(Sum(column) / |column| as real)
  }

  /** Over non-negative scores, each 1 contributes fully to the sum. */
  lemma {:induction false} CountOnesAtMostSum(column: seq<real>)
    requires forall i :: 0 <= i < |column| ==> column[i] >= 0.0
    ensures Count(column, 1.0) as real <= Sum(column)
  {
    if |column| > 0 {
      CountOnesAtMostSum(column[1..]);
    }
  }

  /** The logged figure never exceeds the mean reciprocal rank. */
  lemma LoggedMrrAtMostMean(column: seq<real>)
    requires |column| > 0
    requires forall i :: 0 <= i < |column| ==> column[i] >= 0.0
    ensures RetrievalMetrics(column).value.loggedMrr <= MeanReciprocalRank(column).value
  {
    CountOnesAtMostSum(column);
    DivMonotone(Count(column, 1.0) as real, Sum(column), |column| as real);
    assert RetrievalMetrics(column).value.loggedMrr == Count(column, 1.0) as real / |column| as real;
  }

  /** One gold passage found in second place: the logged figure is 0 while
      the mean reciprocal rank is 1/2. */
  lemma LoggedMrrDiffersFromMean()
    ensures RetrievalMetrics([0.5]).value.loggedMrr == 0.0
    ensures MeanReciprocalRank([0.5]).value == 0.5
  {
    assert Count([0.5], 1.0) == 0 by {
      assert [0.5][1..] == [];
    }
    assert Sum([0.5]) == 0.5 by {
      assert [0.5][1..] == [];
    }
  }
}
