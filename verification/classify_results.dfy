/** What classification puts into a row, number by number, and what its labels say. */
module ClassifyResults {
  import opened Contracts
  import opened Percentiles
  import opened Classify

  // Ranks --------------------------------------------------------------------------------------

  /** In the ascending list the value stands at the places first to last and nowhere else. */
  ghost predicate Stands(sorted: seq<real>, v: real, first: nat, last: nat) {
    && first <= last < |sorted|
    && (forall k :: 0 <= k < first ==> sorted[k] < v)
    && (forall k :: first <= k <= last ==> sorted[k] == v)
    && (forall k :: last < k < |sorted| ==> v < sorted[k])
  }

  lemma {:induction false} CountsBefore(s: seq<real>, v: real, first: nat, end: nat)
    requires first <= end <= |s|
    requires forall k :: 0 <= k < first ==> s[k] < v
    requires forall k :: first <= k < end ==> s[k] == v
    requires forall k :: end <= k < |s| ==> v < s[k]
    ensures CountLess(s, v) == first && CountEqual(s, v) == end - first
    decreases |s|
  {
    if |s| > 0 {
      var n := |s| - 1;
      CountsBefore(s[..n], v, if first <= n then first else n, if end <= n then end else n);
    }
  }

  /** The rank of a value is the mean of its places in the ascending list, from 0 for the first to 100
      for the last; a single value has rank 0. */
  lemma {:induction false} RankIsMeanPlace(values: seq<real>, v: real, first: nat, last: nat)
    requires Stands(SortReals(values), v, first, last)
    ensures |values| >= 2 ==>
      Clamped(Rank(values, v)) == 100.0 * ((first + last) as real / 2.0) / (|values| - 1) as real
    ensures |values| == 1 ==> Clamped(Rank(values, v)) == 0.0
  {
    CountsBefore(SortReals(values), v, first, last + 1);
    RankSorted(values, v);
    SortAscends(values);
    assert SortReals(values)[first] in SortReals(values);
    hide SortReals, CountLess, CountEqual;
    RankBounds(values, v);
  }

  // The score ----------------------------------------------------------------------------------

  lemma WeightedUnfolded(row: Numbers)
    ensures WeightedSum(WEIGHTS, row) ==
      (if LIKES in row then 0.4 * row[LIKES] else 0.0) + (if BOOKMARKS in row then 0.3 * row[BOOKMARKS] else 0.0) +
      (if LIFT in row then 0.2 * row[LIFT] else 0.0) + (if COMMENTS in row then 0.1 * row[COMMENTS] else 0.0)
  {
    assert WEIGHTS[1..] == [Weight(0.3, BOOKMARKS), Weight(0.2, LIFT), Weight(0.1, COMMENTS)];
    assert WEIGHTS[1..][1..] == [Weight(0.2, LIFT), Weight(0.1, COMMENTS)];
    assert WEIGHTS[1..][1..][1..] == [Weight(0.1, COMMENTS)];
    assert WEIGHTS[1..][1..][1..][1..] == [];
    WeightedStep(WEIGHTS, row);
    WeightedStep(WEIGHTS[1..], row);
    WeightedStep(WEIGHTS[1..][1..], row);
    WeightedStep(WEIGHTS[1..][1..][1..], row);
    assert WeightedSum([], row) == 0.0;
  }

  lemma WeightedStep(weights: seq<Weight>, row: Numbers)
    requires |weights| > 0
    ensures WeightedSum(weights, row) ==
      (if weights[0].key in row then weights[0].weight * row[weights[0].key] else 0.0) + WeightedSum(weights[1..], row)
  {
  }

  /** The score is the mean of the known percentiles, weighted four, three, two and one. */
  lemma {:induction false} ScoreIsWeightedMean(row: Numbers)
    requires ValueScore(row).Some?
    ensures ValueScore(row).value *
      ((if LIKES in row then 4.0 else 0.0) + (if BOOKMARKS in row then 3.0 else 0.0) +
       (if LIFT in row then 2.0 else 0.0) + (if COMMENTS in row then 1.0 else 0.0)) ==
      (if LIKES in row then 4.0 * row[LIKES] else 0.0) + (if BOOKMARKS in row then 3.0 * row[BOOKMARKS] else 0.0) +
      (if LIFT in row then 2.0 * row[LIFT] else 0.0) + (if COMMENTS in row then 1.0 * row[COMMENTS] else 0.0)
  {
    SumsUnfolded(row);
    WeightedUnfolded(row);
    hide WeightSum, WeightedSum;
    TenTimes(WeightedSum(WEIGHTS, row), WeightSum(WEIGHTS, row));
  }

  lemma TenTimes(x: real, s: real)
    requires s > 0.0
    ensures (x / s) * (10.0 * s) == 10.0 * x
  {
    var y := x / s;
    assert y * s == x;
    assert y * (10.0 * s) == 10.0 * (y * s);
  }

  // The classified row -------------------------------------------------------------------------

  /** The percentile a metric gets among the rows that have it; nothing if the row lacks it. */
  ghost predicate RankedAs(rows: seq<Numbers>, row: Numbers, i: nat, source: string, target: string)
    requires i < |rows|
  {
    && (target in row <==> source in rows[i])
    && (target in row ==> row[target] == Clamped(Rank(KnownValues(rows, source), rows[i][source])))
  }

  ghost predicate Ratio(row: Numbers, key: string, over: string, under: string) {
    && (key in row <==> over in row && under in row)
    && (key in row ==> row[key] == row[over] / (if row[under] >= 1.0 then row[under] else 1.0))
  }

  /** A row with none of classification's own numbers. */
  ghost predicate Fresh(row: Numbers) {
    Raw(row) && "save_like_ratio" !in row && "save_rate" !in row
  }

  lemma KnownUntouched(rows: seq<Numbers>, source: string, target: string, key: string)
    requires key != target
    ensures KnownValues(RankAll(rows, source, target), key) == KnownValues(rows, key)
  {
    if |KnownValues(rows, source)| > 0 {
      KnownSame(rows, RankAll(rows, source, target), key);
    }
  }

  lemma {:induction false} KnownSame(a: seq<Numbers>, b: seq<Numbers>, key: string)
    requires |a| == |b|
    requires forall i :: 0 <= i < |a| ==> (key in a[i] <==> key in b[i]) && (key in a[i] ==> a[i][key] == b[i][key])
    ensures KnownValues(a, key) == KnownValues(b, key)
  {
    if |a| > 0 { KnownSame(a[..|a| - 1], b[..|b| - 1], key); }
  }

  lemma OneRanked(rows: seq<Numbers>, source: string, target: string, i: nat)
    requires i < |rows| && target !in rows[i]
    ensures var row := RankAll(rows, source, target)[i];
      RankedAs(rows, row, i, source, target) && row - {target} == rows[i]
  {
    if source in rows[i] { KnownIn(rows, source, i); }
    hide KnownValues, Rank;
    assert rows[i] - {target} == rows[i];
    if source in rows[i] {
      var r := Clamped(Rank(KnownValues(rows, source), rows[i][source]));
      assert rows[i][target := r] - {target} == rows[i];
    }
  }

  /** One more ranking leaves an earlier one as it was. */
  lemma RankedStill(rows: seq<Numbers>, before: Numbers, row: Numbers, i: nat, source: string, target: string,
      other: string)
    requires i < |rows| && RankedAs(rows, before, i, source, target) && target != other
    requires row - {other} == before
    ensures RankedAs(rows, row, i, source, target)
  {
    hide KnownValues, Rank, Clamped;
    Removed(row, other, before);
  }

  /** Ranking rows in which other metrics were ranked before. */
  lemma RankedAfter(rows: seq<Numbers>, more: seq<Numbers>, row: Numbers, i: nat, source: string, target: string)
    requires i < |rows| == |more| && RankedAs(more, row, i, source, target)
    requires KnownValues(more, source) == KnownValues(rows, source)
    requires (source in more[i] <==> source in rows[i]) && (source in rows[i] ==> more[i][source] == rows[i][source])
    ensures RankedAs(rows, row, i, source, target)
  {
    hide KnownValues, Rank, Clamped;
  }

  /** Ranking the likes, then the bookmarks, then the comments of one row. */
  lemma RankedThrice(rows: seq<Numbers>, i: nat)
    requires i < |rows| && Fresh(rows[i])
    ensures var row := Ranked(rows)[i];
      && RankedAs(rows, row, i, "likes", LIKES) && RankedAs(rows, row, i, "bookmarks", BOOKMARKS)
      && RankedAs(rows, row, i, "comments", COMMENTS) && row - {LIKES, BOOKMARKS, COMMENTS} == rows[i]
  {
    hide RankAll, LIKES, BOOKMARKS, COMMENTS, LIFT, KnownValues, RankedAs;
    RankMetricNames();
    var first := RankAll(rows, "likes", LIKES);
    var second := RankAll(first, "bookmarks", BOOKMARKS);
    var third := RankAll(second, "comments", COMMENTS);
    OneRanked(rows, "likes", LIKES, i);
    Removed(first[i], LIKES, rows[i]);
    OneRanked(first, "bookmarks", BOOKMARKS, i);
    Removed(second[i], BOOKMARKS, first[i]);
    OneRanked(second, "comments", COMMENTS, i);
    KnownUntouched(rows, "likes", LIKES, "bookmarks");
    KnownUntouched(rows, "likes", LIKES, "comments");
    KnownUntouched(first, "bookmarks", BOOKMARKS, "comments");
    RankedAfter(rows, first, second[i], i, "bookmarks", BOOKMARKS);
    RankedAfter(rows, second, third[i], i, "comments", COMMENTS);
    RankedStill(rows, first[i], second[i], i, "likes", LIKES, BOOKMARKS);
    RankedStill(rows, second[i], third[i], i, "likes", LIKES, COMMENTS);
    RankedStill(rows, second[i], third[i], i, "bookmarks", BOOKMARKS, COMMENTS);
    ThriceRemoved(third[i], second[i], first[i], rows[i]);
  }

  lemma ThriceRemoved(d: Numbers, c: Numbers, b: Numbers, a: Numbers)
    requires d - {COMMENTS} == c && c - {BOOKMARKS} == b && b - {LIKES} == a
    ensures d - {LIKES, BOOKMARKS, COMMENTS} == a
  {
    hide LIKES, BOOKMARKS, COMMENTS;
  }

  lemma NamesDiffer()
    ensures var names := [LIKES, BOOKMARKS, COMMENTS, "value_score", "save_like_ratio", "save_rate", "likes",
                          "bookmarks", "comments", "views"];
      forall i, j :: 0 <= i < j < |names| ==> names[i] != names[j]
  {
    KeysDiffer();
    var lengths := [21, 25, 24, 11, 15, 9, 5, 9, 8, 5];
    assert "save_rate"[0] != "bookmarks"[0] && "likes"[0] != "views"[0];
    assert |"value_score"| == 11 && |"save_like_ratio"| == 15 && |"save_rate"| == 9 && |"likes"| == 5;
    assert |"bookmarks"| == 9 && |"comments"| == 8 && |"views"| == 5;
    hide LIKES, BOOKMARKS, COMMENTS;
  }

  lemma Removed(row: Numbers, target: string, rest: Numbers)
    requires row - {target} == rest
    ensures forall key :: key != target ==> (key in row <==> key in rest) && (key in row ==> row[key] == rest[key])
  {
    forall key | key != target ensures (key in row <==> key in rest) && (key in row ==> row[key] == rest[key]) {
      assert key in rest <==> key in row - {target};
    }
  }

  lemma RankMetricNames()
    ensures LIKES !in ["likes", "bookmarks", "comments", "views"]
    ensures BOOKMARKS !in ["likes", "bookmarks", "comments", "views"]
    ensures COMMENTS !in ["likes", "bookmarks", "comments", "views"]
    ensures LIKES != BOOKMARKS && LIKES != COMMENTS && BOOKMARKS != COMMENTS
    ensures "value_score" !in [LIKES, BOOKMARKS, COMMENTS, "likes", "bookmarks", "comments", "views"]
    ensures "save_like_ratio" !in [LIKES, BOOKMARKS, COMMENTS, "likes", "bookmarks", "comments", "views", "value_score"]
    ensures "save_rate" !in
            [LIKES, BOOKMARKS, COMMENTS, "likes", "bookmarks", "comments", "views", "value_score", "save_like_ratio"]
  {
    NamesDiffer();
    hide LIKES, BOOKMARKS, COMMENTS;
    var names := [LIKES, BOOKMARKS, COMMENTS, "value_score", "save_like_ratio", "save_rate", "likes", "bookmarks",
                  "comments", "views"];
    assert names[0] == LIKES && names[1] == BOOKMARKS && names[2] == COMMENTS && names[3] == "value_score";
    assert names[4] == "save_like_ratio" && names[5] == "save_rate" && names[6] == "likes";
    assert names[7] == "bookmarks" && names[8] == "comments" && names[9] == "views";
  }

  /** The keys of one row and not another's are among these. */
  ghost predicate SameBut(a: Numbers, b: Numbers, keys: set<string>) {
    forall key :: key !in keys ==> (key in a <==> key in b) && (key in a ==> a[key] == b[key])
  }

  /** Scoring one row. */
  lemma ScoredNumbers(row: Numbers)
    requires "value_score" !in row && "save_like_ratio" !in row && "save_rate" !in row
    ensures var scored := ScoredRow(row);
      && Ratio(scored, "save_like_ratio", "bookmarks", "likes") && Ratio(scored, "save_rate", "bookmarks", "views")
      && SameBut(scored, row, {"value_score", "save_like_ratio", "save_rate"})
      && ("value_score" in scored <==> ValueScore(row).Some?)
      && ("value_score" in scored ==> scored["value_score"] == ValueScore(row).value)
  {
    hide ValueScore;
    RankMetricNames();
  }

  /** The score of a row without a creator lift. */
  ghost predicate ScoredAs(row: Numbers) {
    && ("value_score" in row <==> LIKES in row && BOOKMARKS in row)
    && ("value_score" in row ==>
          if COMMENTS in row then 8.0 * row["value_score"] == 4.0 * row[LIKES] + 3.0 * row[BOOKMARKS] + row[COMMENTS]
          else 7.0 * row["value_score"] == 4.0 * row[LIKES] + 3.0 * row[BOOKMARKS])
  }

  lemma ScoreWithoutLift(ranked: Numbers, row: Numbers)
    requires LIFT !in ranked && SameBut(row, ranked, {"value_score", "save_like_ratio", "save_rate"})
    requires "value_score" in row <==> ValueScore(ranked).Some?
    requires "value_score" in row ==> row["value_score"] == ValueScore(ranked).value
    ensures ScoredAs(row)
  {
    ScoreExists(ranked);
    if ValueScore(ranked).Some? { ScoreIsWeightedMean(ranked); }
    RankMetricNames();
    hide ValueScore, LIKES, BOOKMARKS, COMMENTS, LIFT;
  }

  /** Every number of a classified row: the three percentiles among the rows that have the metric, the
      two ratios, the score as the weighted mean of the percentiles, and everything else as it was. */
  lemma {:induction false} ClassifiedRow(rows: seq<Numbers>, i: nat)
    requires i < |rows| && Fresh(rows[i])
    ensures var row := Classified(rows)[i];
      && RankedAs(rows, row, i, "likes", LIKES) && RankedAs(rows, row, i, "bookmarks", BOOKMARKS)
      && RankedAs(rows, row, i, "comments", COMMENTS) && ScoredAs(row)
      && Ratio(row, "save_like_ratio", "bookmarks", "likes") && Ratio(row, "save_rate", "bookmarks", "views")
      && SameBut(row, rows[i], {LIKES, BOOKMARKS, COMMENTS, "value_score", "save_like_ratio", "save_rate"})
  {
    RankedThrice(rows, i);
    RankedRowShape(rows, i);
    var ranked := Ranked(rows)[i];
    assert Classified(rows)[i] == ScoredRow(ranked);
    RankMetricNames();
    hide Ranked, Classified, ValueScore, ScoredRow, RankAll, LIKES, BOOKMARKS, COMMENTS, LIFT, KnownValues, Rank,
      Clamped,
      InRange, Ratio, ScoredAs;
    RemovedAll(ranked, rows[i]);
    ScoredNumbers(ranked);
    ScoreWithoutLift(ranked, ScoredRow(ranked));
  }

  lemma RemovedAll(ranked: Numbers, row: Numbers)
    requires ranked - {LIKES, BOOKMARKS, COMMENTS} == row
    ensures SameBut(ranked, row, {LIKES, BOOKMARKS, COMMENTS})
  {
    hide LIKES, BOOKMARKS, COMMENTS;
    forall key | key !in {LIKES, BOOKMARKS, COMMENTS}
      ensures (key in ranked <==> key in row) && (key in ranked ==> ranked[key] == row[key])
    {
      assert key in row <==> key in ranked - {LIKES, BOOKMARKS, COMMENTS};
    }
  }

  // The labels ---------------------------------------------------------------------------------

  /** A label says: too few rows for certainty below ten; then certified from thirty on, preliminary
      before, for the rows that reach the 0.9 quantile, or for likes at least 20, whichever is more. */
  lemma {:induction false} MarkMeaning(rows: seq<Numbers>, key: string, floor: Option<real>, i: nat)
    requires i < |rows|
    ensures var known, mark := KnownValues(rows, key), Marks(rows, key, floor)[i];
      if key !in rows[i] then mark == NotHigh
      else
        var quantile := LinearPercentile(known, 0.9);
        && quantile.Some?
        && var reached := rows[i][key] >= quantile.value && (floor.Some? ==> rows[i][key] >= floor.value);
           && (mark == Insufficient <==> |known| < 10)
           && (mark == Preliminary <==> 10 <= |known| < 30 && reached)
           && (mark == Certified <==> 30 <= |known| && reached)
           && (mark == NotHigh <==> 10 <= |known| && !reached)
  {
    hide KnownValues, LinearPercentile;
    if key in rows[i] {
      KnownIn(rows, key, i);
      CutoffBetween(KnownValues(rows, key), 0.9);
      hide Percentiles.Brackets;
    }
  }

  /** The cutoff returned: the 0.9 quantile of the known values, or the floor if that is more. */
  lemma {:induction false} CutoffReturned(rows: seq<Numbers>, key: string, floor: Option<real>)
    ensures var cutoff := Cutoff(rows, key, floor);
      && (cutoff.Some? <==> |KnownValues(rows, key)| > 0)
      && (cutoff.Some? ==>
            var quantile := LinearPercentile(KnownValues(rows, key), 0.9);
            && quantile.Some? && cutoff.value >= quantile.value
            && (floor.None? ==> cutoff.value == quantile.value)
            && (floor.Some? ==> cutoff.value >= floor.value && cutoff.value in [quantile.value, floor.value]))
  {
    hide KnownValues, LinearPercentile;
    if |KnownValues(rows, key)| > 0 {
      CutoffBetween(KnownValues(rows, key), 0.9);
    } else {
      NoPercentile(KnownValues(rows, key), 0.9);
    }
  }

  lemma NoPercentile(values: seq<real>, q: real)
    requires |values| == 0 && 0.0 <= q <= 1.0
    ensures LinearPercentile(values, q).None?
  {
  }
}
